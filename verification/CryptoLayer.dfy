/** The crypto layer between a lower layer that carries frames and an upper layer that carries user
    data, as initiator or responder, one event at a time. */
module CryptoLayers {
  import opened Bytes
  import opened Codec
  import opened Messages
  import opened Sessions
  import opened LayerTraces

  /** The data that the upper layer is having transmitted. */
  class TxState {
    var transmitting: bool
    var remainder: seq<Byte>

    constructor ()
      ensures !transmitting && remainder == []
    {
      transmitting, remainder := false, [];
    }

    predicate IsIdle()
      reads this
    {
      !transmitting && remainder == []
    }

    predicate IsReadyTx()
      reads this
    {
      !transmitting && remainder != []
    }

    method Reset()
      modifies this
      ensures IsIdle()
    {
      transmitting, remainder := false, [];
    }

    method Initialize(data: seq<Byte>)
      modifies this
      ensures !transmitting && remainder == data
    {
      transmitting, remainder := false, data;
    }

    /** True when this completes the whole of the data. */
    method OnTxComplete() returns (done: bool)
      modifies this
      ensures !transmitting && remainder == old(remainder)
      ensures done <==> old(transmitting) && remainder == []
    {
      if transmitting {
        transmitting := false;
        return remainder == [];
      }
      return false;
    }

    method BeginTransmit(rest: seq<Byte>) returns (ok: bool)
      modifies this
      ensures ok <==> old(remainder) != []
      ensures if ok then transmitting && remainder == rest else transmitting == old(transmitting) && remainder == old(remainder)
    {
      if remainder == [] {
        return false;
      }
      transmitting, remainder := true, rest;
      return true;
    }
  }

  /** The length of every handshake error message, as `ErrorLayout` shows. */
  const ERROR_SIZE: nat := 6

  datatype HandshakeState = Idle | WaitForBeginReply | WaitForAuthReply | WaitForRetry | BadConfiguration

  datatype Timer = NotRunning | ResponseTimer | RetryTimer

  datatype Event =
    | LowerOpen | LowerClose | LowerRx(message: seq<Byte>) | LowerTxReady
    | UpperWrite(data: seq<Byte>) | UpperRead
    | ResponseTimeout | RetryTimeout | SessionTimeout

  /** t' continues t with a. */
  ghost predicate Grew(t: seq<Action>, t': seq<Action>, a: Action) {
    && LoanAfter(t') == LoanStep(LoanAfter(t), a)
    && LedgerAfter(t') == LedgerStep(LedgerAfter(t), a)
    && ActivationAfter(t') == ActivationStep(ActivationAfter(t), a)
    && IntakeAfter(t') == IntakeStep(IntakeAfter(t), a)
    && AccountAfter(t') == AccountStep(AccountAfter(t), a)
  }

  lemma GrewBy(t: seq<Action>, a: Action)
    ensures Grew(t, t + [a], a)
  {
    assert (t + [a])[..|t|] == t;
  }

  /** A successful format takes a front piece of the text, not empty unless the text is. */
  lemma FragmentTaken(s: State, c: Config, now: int, text: seq<Byte>, auth: bool)
    requires ValidConfig(c) && FormatNonced(s, c, now, text, auth).Formed?
    ensures var rest := FormatNonced(s, c, now, text, auth).rest;
            && |rest| <= |text| && text == Taken(text, rest) + rest
            && |Taken(text, rest)| <= MAX_FRAGMENT && (text != [] ==> |rest| < |text|)
  {
    hide MetadataOctets, Fits, CastTime;
    var n := FragmentLength(|text|, EncryptRoom(c.maxPayload));
    assert text == text[..n] + text[n..];
  }

  /** The account after accepting these texts. */
  function Accepting(c: Account, texts: seq<seq<Byte>>): Account {
    c.(ins := c.ins + texts)
  }

  /** The active session at some moment: how many sessions had become active, which object it is and
      what it holds, and whether the upper layer is open. */
  datatype Slot = Slot(activations: nat, session: Session, state: State, upperOpen: bool)

  /** The same session with its counters at least where they were. */
  ghost predicate Kept(a: State, b: State) {
    && b.keys == a.keys && b.valid == a.valid && b.algorithms == a.algorithms && b.params == a.params
    && a.rxNonce <= b.rxNonce && a.txNonce <= b.txNonce
  }

  /** Without an activation in between the active session is the same object with the same keys, unless
      it lost its validity, and then the upper layer is closed. */
  ghost predicate Continues(a: Slot, b: Slot) {
    && a.activations <= b.activations && (b.upperOpen ==> b.state.valid)
    && (a.activations == b.activations ==>
          a.session == b.session && (Kept(a.state, b.state) || (!b.state.valid && !b.upperOpen)))
  }

  lemma ContinuesOn(a: Slot, b: Slot, c: Slot)
    requires Continues(a, b) && Continues(b, c)
    ensures Continues(a, c)
  {}

  lemma ValidateKeeps(s: State, c: Config, m: SessionData, now: int, auth: bool)
    ensures Kept(s, AfterValidate(s, c, m, now, auth))
  {
    hide Open, TimeError;
  }

  lemma FormedCounts(s: State, c: Config, now: int, text: seq<Byte>, auth: bool)
    requires ValidConfig(c) && ValidState(s) && FormatNonced(s, c, now, text, auth).Formed?
    ensures s.valid && AfterFormat(s, c, now, text, auth).txNonce == s.txNonce + 1
  {
    hide MetadataOctets, Fits, CastTime;
  }

  lemma FormatKeeps(s: State, c: Config, now: int, text: seq<Byte>, auth: bool)
    requires ValidConfig(c) && ValidState(s)
    ensures Kept(s, AfterFormat(s, c, now, text, auth))
  {
    hide Format;
  }

  class CryptoLayer {
    const initiator: bool
    const nonceTrigger: nat
    const capacity: nat // what the frame writer takes
    const tx: TxState
    const first: Session
    const second: Session

    // the lower layer: ready drops when a frame is lent and rises when it comes back
    var lowerReady: bool
    var inbox: seq<seq<Byte>>

    var isOpen: bool
    var upperOpen: bool
    var upperProcessing: bool
    var active: Session
    var pending: Session
    var payload: seq<Byte>

    // the initiator
    var state: HandshakeState
    var timer: Timer
    var sessionTimer: bool
    var handshakeRequired: bool

    ghost var trace: seq<Action>
    ghost var owed: bool // a transfer is complete and the upper layer is about to be told

    // ---- Invariants ----

    ghost predicate Shape()
      reads `active, `pending, first, second
    {
      && first != second && first.Valid() && second.Valid()
      && ((active == first && pending == second) || (active == second && pending == first))
    }

    /** While a frame is lent the lower layer is not ready, and no loan was ever broken. */
    ghost predicate LoanOk()
      reads `trace, `lowerReady
    {
      LoanAfter(trace).kept && (LoanAfter(trace).lent ==> !lowerReady)
    }

    ghost predicate TxOk()
      reads `trace, `lowerReady, `owed, `upperOpen, tx
    {
      && TransfersOk(LedgerAfter(trace), tx.transmitting, tx.remainder, owed, upperOpen)
      && (tx.transmitting ==> !lowerReady)
    }

    /** Every session is numbered, and has counted the messages it sent. */
    ghost predicate ActivationOk()
      reads `trace, `active, `pending, first, second
      requires Shape()
    {
      Numbered(ActivationAfter(trace), pending.valid, pending.txNonce, active.valid, active.txNonce)
    }

    /** What was accepted is handed out, waiting, or given up. */
    ghost predicate IntakeOk()
      reads `trace, `payload, `upperProcessing
    {
      IntakeFits(IntakeAfter(trace), payload, upperProcessing) && AccountAfter(trace).judged
    }

    ghost predicate Parts()
      reads `trace, `lowerReady, `owed, `upperOpen, `active, `pending, `payload, `upperProcessing, tx, first, second
    {
      Shape() && LoanOk() && TxOk() && ActivationOk() && IntakeOk()
    }

    /** An open upper layer always has a valid session to talk over. */
    ghost predicate UpperOk()
      reads `upperOpen, `active, `pending, first, second
      requires Shape()
    {
      upperOpen ==> active.valid
    }

    /** A closed layer transmits nothing for the upper layer, and a closed initiator has no session. */
    ghost predicate Quiet()
      reads `isOpen, `active, `pending, tx, first, second
      requires Shape()
    {
      !isOpen ==> tx.IsIdle() && (initiator ==> !active.valid)
    }

    /** What holds inside the handlers. */
    ghost predicate Working()
      reads `trace, `lowerReady, `owed, `upperOpen, `isOpen, `active, `pending, `payload, `upperProcessing, tx, first, second
    {
      Parts() && UpperOk() && Quiet()
    }

    /** The timers fit the handshake state. */
    ghost predicate TimersMatch()
      reads `state, `timer, `sessionTimer, `handshakeRequired, `isOpen
    {
      && (state in {WaitForBeginReply, WaitForAuthReply} <==> timer == ResponseTimer)
      && (state == WaitForRetry <==> timer == RetryTimer)
      && (sessionTimer ==> state == Idle && !handshakeRequired)
      && (!isOpen || !initiator ==> state == Idle && !sessionTimer && !handshakeRequired)
    }

    /** An open idle initiator has a session timer running or a handshake that waits for the lower layer. */
    ghost predicate Awake()
      reads `state, `sessionTimer, `handshakeRequired, `isOpen, `lowerReady
    {
      initiator && isOpen && state == Idle ==> sessionTimer || (handshakeRequired && !lowerReady)
    }

    /** What holds between events. */
    ghost predicate Valid()
      reads this, tx, first, second
    {
      Working() && TimersMatch() && Awake() && !owed && Even()
    }

    /** How many sessions became active so far. */
    ghost function Activations(): nat
      reads `trace
    {
      ActivationAfter(trace).activations
    }

    /** Nothing was forgotten, no session activated, no text accepted or handed out. */
    twostate predicate Steady()
      reads `trace
    {
      && old(trace) <= trace && Activations() == old(Activations())
      && AccountAfter(trace) == old(AccountAfter(trace))
    }

    /** Messages were read, nothing else: none is forgotten, and none is made up. */
    twostate predicate OnlyRead()
      reads `trace, `inbox
    {
      && old(trace) <= trace && Books().outs == old(Books()).outs && Books().writes == old(Books()).writes
      && Incoming() == old(Incoming())
    }

    /** These messages arrived, these texts were read by the upper layer and this data was taken over from
        it; of all that arrived nothing is forgotten and nothing made up. */
    twostate predicate Moved(arrived: seq<seq<Byte>>, read: seq<seq<Byte>>, written: seq<seq<Byte>>)
      reads `trace, `inbox
    {
      && old(trace) <= trace && Incoming() == old(Incoming()) + arrived
      && Books().outs == old(Books()).outs + read && Books().writes == old(Books()).writes + written
    }

    ghost function Books(): Account
      reads `trace
    {
      AccountAfter(trace)
    }

    /** Everything that reading had to bring was accepted. */
    ghost predicate Even()
      reads `trace
    {
      Books().ins == Books().due
    }

    /** The messages read so far and those that wait. */
    ghost function Incoming(): seq<seq<Byte>>
      reads `trace, `inbox
    {
      Books().octets + inbox
    }

    /** Who judges a session message: the active session data, and the pending session the first message
        of a peer, on the initiator only while it is waited for. */
    ghost function JudgeOf(m: SessionData): Option<Judge>
      reads this, first, second
      requires Shape()
    {
      if m.metadata.nonce != 0 then Some(Judge(active.View(), active.config, false))
      else if initiator && state != WaitForAuthReply then None
      else Some(Judge(pending.View(), pending.config, true))
    }

    ghost function JudgeOfOctets(octets: seq<Byte>): Option<Judge>
      reads this, first, second
      requires Shape()
    {
      var m := ReadSessionData(octets);
      if m.None? then None else JudgeOf(m.value)
    }

    /** The number of the pending or the active session. */
    ghost function SessionId(session: Session): nat
      reads `trace, `pending
    {
      var a := ActivationAfter(trace);
      var id := if session == pending then a.pending else a.active;
      if id.Some? then id.value else 0
    }

    ghost function ActiveSlot(): Slot
      reads `trace, `active, `pending, `upperOpen, first, second
      requires Shape()
    {
      Slot(Activations(), active, active.View(), upperOpen)
    }

    constructor (initiator: bool, nonceTrigger: nat, config: Config, algorithms: Algorithms, params: Params, lowerReady: bool)
      requires ValidConfig(config) && params.maxNonce <= MAX_U16
      ensures Valid() && trace == [] && inbox == [] && !isOpen && this.initiator == initiator
      ensures fresh(tx) && fresh(first) && fresh(second)
    {
      this.initiator, this.nonceTrigger, this.lowerReady, capacity := initiator, nonceTrigger, lowerReady, config.maxPayload;
      inbox, isOpen, upperOpen, upperProcessing, payload := [], false, false, false, [];
      state, timer, sessionTimer, handshakeRequired, trace, owed := Idle, NotRunning, false, false, [], false;
      var t := new TxState();
      var a := new Session(config, algorithms, params);
      var b := new Session(config, algorithms, params);
      tx, first, second, active, pending := t, a, b, a, b;
    }

    ghost method Emit(a: Action)
      modifies `trace
      ensures trace == old(trace) + [a] && Grew(old(trace), trace, a)
    {
      GrewBy(trace, a);
      trace := trace + [a];
    }

    // ---- The neighbours ----

    /** Serialise a message into the frame buffer, which succeeds if it fits. */
    method WriteFrame(size: nat) returns (ok: bool)
      requires Parts() && lowerReady
      modifies `trace
      ensures Parts() && trace == old(trace) + [Wrote] && Steady() && (ok <==> size <= capacity)
    {
      MarkWrote();
      ok := size <= capacity;
    }

    method LowerStartTx(ghost fragment: seq<Byte>) returns (ok: bool)
      modifies `lowerReady, `trace
      ensures ok == old(lowerReady) && !lowerReady
      ensures if ok then trace == old(trace) + [StartedTx(fragment)] && Grew(old(trace), trace, StartedTx(fragment))
              else trace == old(trace)
    {
      if !lowerReady {
        return false;
      }
      Emit(StartedTx(fragment));
      lowerReady := false;
      return true;
    }

    /** Lend a frame without user data. */
    method Transmit() returns (ok: bool)
      requires Parts() && lowerReady
      modifies `lowerReady, `trace
      ensures Parts() && ok && !lowerReady
      ensures trace == old(trace) + [StartedTx([])] && Steady()
    {
      hide LoanAfter, LedgerAfter, ActivationAfter, IntakeAfter, AccountAfter, TransfersOk, IntakeFits, Numbered;
      ok := LowerStartTx([]);
    }

    method UpperOnLowerOpen()
      requires Parts() && active.valid
      modifies `upperOpen, `trace
      ensures Parts() && upperOpen && Steady()
    {
      hide LoanAfter, LedgerAfter, ActivationAfter, IntakeAfter, AccountAfter, TransfersOk, IntakeFits, Numbered;
      if !upperOpen {
        UpperOpenedStep(LedgerAfter(trace), tx.transmitting, tx.remainder, owed, upperOpen);
        upperOpen := true;
        Emit(UpperOpened);
      }
    }

    method UpperOnLowerClose()
      requires Parts()
      modifies `upperOpen, `trace
      ensures Parts() && !upperOpen && Steady()
      ensures trace == old(trace) + (if old(upperOpen) then [UpperClosed] else [])
    {
      hide LoanAfter, LedgerAfter, ActivationAfter, IntakeAfter, AccountAfter, TransfersOk, IntakeFits, Numbered;
      if upperOpen {
        UpperClosedStep(LedgerAfter(trace), tx.transmitting, tx.remainder, owed);
        upperOpen := false;
        Emit(UpperClosed);
      }
    }

    // ---- Sessions ----

    /** The old active session is gone, the pending one takes its place: it just accepted m as the
        message that authenticates the peer. */
    method ActivatePending(ghost s: State, ghost m: SessionData, ghost now: int)
      requires Parts()
      requires Validate(s, pending.config, m, now, true).Accepted? && pending.View() == AfterValidate(s, pending.config, m, now, true)
      modifies `active, `pending, `trace, first, second
      ensures Parts() && active == old(pending) && pending == old(active)
      ensures active.View() == old(pending.View()) && !pending.valid
      ensures s.valid && m.metadata.nonce == 0 && Activations() == old(Activations()) + 1
      ensures old(trace) <= trace && Books() == old(Books())
    {
      hide LoanOk, TxOk, IntakeOk, ActivationAfter, ActivationStep, AccountAfter, Numbered;
      ActivatedStep(ActivationAfter(trace), pending.txNonce, active.valid, active.txNonce, m, active.txNonce);
      MarkActivated(ActivationAfter(trace).pending.value, m);
      active.Reset();
      active, pending := pending, active;
    }

    ghost method MarkActivated(id: nat, m: SessionData)
      requires Shape() && LoanOk() && TxOk() && IntakeOk()
      modifies `trace
      ensures Shape() && LoanOk() && TxOk() && IntakeOk() && trace == old(trace) + [Authenticated(id, m), Activated(id)]
      ensures ActivationAfter(trace) == ActivationStep(ActivationStep(old(ActivationAfter(trace)), Authenticated(id, m)), Activated(id))
      ensures Activations() == old(Activations()) + 1 && Books() == old(Books())
    {
      hide LoanAfter, LedgerAfter, ActivationAfter, IntakeAfter, AccountAfter, TransfersOk, IntakeFits;
      Emit(Authenticated(id, m));
      Emit(Activated(id));
    }

    /** Whatever the handshake makes of the peer's message: it fails and leaves the session alone, or
        it initialises the session with keys and parameters of its own. */
    method HandshakeInitialize() returns (ok: bool)
      requires Parts()
      modifies pending, `trace
      ensures Parts() && (ok ==> pending.valid && pending.txNonce == pending.rxNonce == 0)
      ensures Steady()
    {
      hide LoanAfter, LedgerAfter, ActivationAfter, IntakeAfter, AccountAfter, TransfersOk, IntakeFits, Numbered;
      var completes: bool, algorithms: Algorithms, params: Params, keys: Keys := *, *, *, *;
      if !completes || params.maxNonce > MAX_U16 {
        return false;
      }
      InitialisedStep(ActivationAfter(trace), pending.valid, pending.txNonce, active.valid, active.txNonce);
      ok := pending.Initialize(algorithms, params, keys);
      if ok {
        Emit(Initialised(ActivationAfter(trace).issued));
      }
    }

    /** Lend a frame that carries the front of the waiting user data. */
    method TransmitFragment(ghost fragment: seq<Byte>, rest: seq<Byte>) returns (ok: bool)
      requires Parts() && lowerReady && !owed && !tx.transmitting
      requires tx.remainder == fragment + rest && 1 <= |fragment| <= MAX_FRAGMENT
      modifies tx, `lowerReady, `trace
      ensures Parts() && ok && !lowerReady && tx.transmitting && tx.remainder == rest
      ensures trace == old(trace) + [StartedTx(fragment)] && Steady()
    {
      hide LoanAfter, LedgerAfter, ActivationAfter, IntakeAfter, AccountAfter, TransfersOk, IntakeFits, Numbered, LedgerStep;
      FragmentStep(LedgerAfter(trace), fragment, rest, upperOpen);
      var _ := tx.BeginTransmit(rest);
      ok := LowerStartTx(fragment);
    }

    /** Have a session format a message into the frame buffer at the time the clock reads. */
    method FormatInto(session: Session, text: seq<Byte>, auth: bool) returns (r: Formatted, now: int)
      requires Parts() && lowerReady && session in {active, pending}
      modifies session, `trace
      ensures Parts() && Steady()
      ensures r == FormatNonced(old(session.View()), session.config, now, text, auth)
      ensures session.valid == old(session.valid) && session.keys == old(session.keys)
      ensures session.View() == AfterFormat(old(session.View()), session.config, now, text, auth)
      ensures trace == old(trace) + if r.Formed? then [Wrote, Sent(old(SessionId(session)), old(session.txNonce))] else [Wrote]
    {
      hide LoanAfter, LedgerAfter, ActivationAfter, IntakeAfter, AccountAfter, TransfersOk, IntakeFits, Numbered, FormatNonced, ActivationStep;
      now := *;
      ghost var before := session.View();
      MarkWrote();
      if auth {
        r := session.FormatSessionAuth(now, text);
      } else {
        r := session.FormatSessionData(now, text);
      }
      if r.Formed? {
        FormedCounts(before, session.config, now, text, auth);
        if session == pending {
          PendingSentStep(ActivationAfter(trace), before.txNonce, active.valid, active.txNonce);
        } else {
          ActiveSentStep(ActivationAfter(trace), pending.valid, pending.txNonce, before.txNonce);
        }
        MarkSent(SessionId(session), before.txNonce);
      }
    }

    ghost method MarkWrote()
      requires Parts() && lowerReady
      modifies `trace
      ensures Parts() && Steady() && trace == old(trace) + [Wrote] && ActivationAfter(trace) == old(ActivationAfter(trace))
    {
      hide LoanAfter, LedgerAfter, ActivationAfter, IntakeAfter, AccountAfter, TransfersOk, IntakeFits, Numbered;
      Emit(Wrote);
    }

    ghost method MarkSent(id: nat, nonce: nat)
      requires Shape() && LoanOk() && TxOk() && IntakeOk()
      modifies `trace
      ensures Shape() && LoanOk() && TxOk() && IntakeOk() && Steady() && trace == old(trace) + [Sent(id, nonce)]
      ensures ActivationAfter(trace) == ActivationStep(old(ActivationAfter(trace)), Sent(id, nonce))
    {
      hide LoanAfter, LedgerAfter, ActivationAfter, IntakeAfter, AccountAfter, TransfersOk, IntakeFits;
      Emit(Sent(id, nonce));
    }

    /** Authenticate towards the peer, with the first piece of waiting user data if there is any. It
        succeeds exactly when the session formats the message at the time the clock reads. */
    method TransmitSessionAuth(session: Session) returns (ok: bool, now: int)
      requires Parts() && lowerReady && !owed && session in {active, pending}
      modifies session, tx, `lowerReady, `trace
      ensures Parts() && Steady() && lowerReady == !ok
      ensures session.View() == AfterFormat(old(session.View()), session.config, now, old(tx.remainder), true)
      ensures session.valid == old(session.valid) && session.keys == old(session.keys)
      ensures var f := FormatNonced(old(session.View()), session.config, now, old(tx.remainder), true);
              && ok == f.Formed?
              && tx.remainder == (if ok then f.rest else old(tx.remainder))
              && tx.transmitting == (ok && old(tx.remainder) != []) && (old(tx.remainder) == [] ==> tx.remainder == [])
              && trace == old(trace) +
                          (if ok then [Wrote, Sent(old(SessionId(session)), old(session.txNonce)), StartedTx(Taken(old(tx.remainder), f.rest))]
                           else [Wrote])
    {
      hide LoanOk, ActivationOk, IntakeOk, ActivationAfter, LedgerAfter, AccountAfter, TransfersOk, FormatNonced;
      var text := tx.remainder;
      var r;
      r, now := FormatInto(session, text, true);
      ok := r.Formed?;
      if ok {
        FragmentTaken(old(session.View()), session.config, now, text, true);
        if text != [] {
          ok := TransmitFragment(Taken(text, r.rest), r.rest);
        } else {
          ok := Transmit();
        }
      }
    }

    /** Fail back to waiting for another attempt. */
    method Retry()
      requires timer == NotRunning
      modifies `timer, `state
      ensures timer == RetryTimer && state == WaitForRetry
    {
      timer := RetryTimer;
      state := WaitForRetry;
    }

    /** Start a handshake now, or remember to. */
    method OnHandshakeRequired()
      requires Working() && TimersMatch() && initiator && isOpen && (state == Idle ==> !sessionTimer)
      modifies `state, `timer, `handshakeRequired, `lowerReady, `trace
      ensures Working() && TimersMatch() && Awake()
      ensures lowerReady ==> old(lowerReady)
      ensures if old(state) == Idle && old(lowerReady) then state in {WaitForBeginReply, WaitForRetry, BadConfiguration}
              else state == old(state) && handshakeRequired && lowerReady == old(lowerReady) && trace == old(trace)
      ensures Steady()
    {
      hide LoanOk, TxOk, ActivationOk, IntakeOk, ActivationAfter, AccountAfter, Session.Valid;
      if state != Idle {
        handshakeRequired := true; // deferred
        return;
      }
      if !lowerReady {
        handshakeRequired := true;
        return;
      }
      var prepared: bool := *;
      if !prepared {
        Retry();
        return;
      }
      var size: nat := *;
      var written := WriteFrame(size);
      if !written {
        state := BadConfiguration;
        return;
      }
      var _ := Transmit();
      timer := ResponseTimer;
      state := WaitForBeginReply;
    }

    /** Renegotiate before the nonces run out. */
    method OnSessionNonceChange(rxNonce: nat, txNonce: nat)
      requires Working() && TimersMatch() && (initiator ==> isOpen && (state == Idle ==> sessionTimer || handshakeRequired))
      modifies `state, `timer, `sessionTimer, `handshakeRequired, `lowerReady, `trace
      ensures Working() && TimersMatch()
      ensures old(Awake()) || !old(lowerReady) ==> Awake()
      ensures lowerReady ==> old(lowerReady)
      ensures old(state) == BadConfiguration ==> state == BadConfiguration
      ensures if initiator && (txNonce >= nonceTrigger || rxNonce >= nonceTrigger) then !sessionTimer && (state != Idle || handshakeRequired)
              else state == old(state) && sessionTimer == old(sessionTimer) && handshakeRequired == old(handshakeRequired)
      ensures !old(lowerReady) ==> trace == old(trace)
      ensures Steady() && (state == WaitForAuthReply ==> old(state) == WaitForAuthReply)
    {
      hide LoanOk, TxOk, ActivationOk, IntakeOk, ActivationAfter, AccountAfter, Session.Valid;
      if initiator && (if txNonce > rxNonce then txNonce else rxNonce) >= nonceTrigger {
        sessionTimer := false;
        OnHandshakeRequired();
      }
    }

    // ---- Transmitting user data ----

    predicate CanTransmitSessionData()
      reads this, tx, active
    {
      active.valid && lowerReady && tx.IsReadyTx()
    }

    /** Format and lend the next fragment. When formatting fails, the session is reset and the upper layer
        closed, but the data stays. */
    method TransmitSessionData() returns (ok: bool, now: int)
      requires Working() && !owed && CanTransmitSessionData()
      modifies `lowerReady, `trace, `upperOpen, tx, active
      ensures Working() && lowerReady == !ok
      ensures Continues(old(ActiveSlot()), ActiveSlot()) && Steady()
      ensures var text := old(tx.remainder);
              var f := FormatNonced(old(active.View()), active.config, now, text, false);
              && ok == f.Formed?
              && if ok then
                   && active.View() == AfterFormat(old(active.View()), active.config, now, text, false)
                   && upperOpen == old(upperOpen) && tx.transmitting && tx.remainder == f.rest && |f.rest| < |text|
                   && trace == old(trace) + [Wrote, Sent(old(SessionId(active)), old(active.txNonce)), StartedTx(Taken(text, f.rest))]
                 else
                   && !active.valid && !upperOpen && !tx.transmitting && tx.remainder == text
                   && trace == old(trace) + ([Wrote] + (if old(upperOpen) then [UpperClosed] else []))
    {
      hide LoanOk, ActivationOk, IntakeOk, ActivationAfter, LedgerAfter, AccountAfter, TransfersOk, FormatNonced, AfterFormat, Kept, Taken;
      var text := tx.remainder;
      ghost var before := active.View();
      var r;
      r, now := FormatInto(active, text, false);
      ok := r.Formed?;
      FormatKeeps(before, active.config, now, text, false);
      if ok {
        FragmentTaken(before, active.config, now, text, false);
        var _ := TransmitFragment(Taken(text, r.rest), r.rest);
      } else {
        ResetActive();
        UpperOnLowerClose();
      }
    }

    method ResetActive()
      requires Parts()
      modifies active
      ensures Parts() && !active.valid
    {
      hide LoanOk, TxOk, IntakeOk, ActivationAfter, AccountAfter, Numbered;
      StillNumbered(ActivationAfter(trace), pending.valid, pending.txNonce, active.valid, active.txNonce,
                    pending.valid, pending.txNonce, false, active.txNonce);
      active.Reset();
    }

    /** Transmit if there is something to transmit and it can go out; that may call for a new handshake. */
    method CheckTransmit() returns (now: int)
      requires Working() && TimersMatch() && Awake() && !owed
      modifies `state, `timer, `sessionTimer, `handshakeRequired, `lowerReady, `trace, `upperOpen, tx, active
      ensures Working() && TimersMatch() && Awake() && !CanTransmitSessionData()
      ensures old(state) == BadConfiguration ==> state == BadConfiguration
      ensures state == WaitForAuthReply ==> old(state) == WaitForAuthReply
      ensures Continues(old(ActiveSlot()), ActiveSlot()) && Steady()
      ensures !old(CanTransmitSessionData()) ==> unchanged(this) && unchanged(tx) && unchanged(active)
      ensures var text := old(tx.remainder);
              var f := FormatNonced(old(active.View()), active.config, now, text, false);
              old(CanTransmitSessionData()) ==>
                if f.Formed? then
                  && active.View() == AfterFormat(old(active.View()), active.config, now, text, false)
                  && upperOpen == old(upperOpen) && !lowerReady
                  && tx.transmitting && tx.remainder == f.rest && |f.rest| < |text|
                  && trace == old(trace) + [Wrote, Sent(old(SessionId(active)), old(active.txNonce)), StartedTx(Taken(text, f.rest))]
                else
                  && !active.valid && !upperOpen && lowerReady && !tx.transmitting && tx.remainder == text
                  && trace == old(trace) + ([Wrote] + (if old(upperOpen) then [UpperClosed] else []))
    {
      hide LoanOk, TxOk, ActivationOk, IntakeOk, ActivationAfter, AccountAfter, Session.Valid, FormatNonced, AfterFormat, Taken, Kept;
      now := 0;
      if CanTransmitSessionData() {
        var ok;
        ok, now := TransmitSessionData();
        if ok {
          OnSessionNonceChange(active.rxNonce, active.txNonce);
        }
      } else {
        SlotContinues();
      }
    }

    method StartTxFromUpper(data: seq<Byte>) returns (accepted: bool)
      requires Valid()
      modifies `state, `timer, `sessionTimer, `handshakeRequired, `lowerReady, `trace, `upperOpen, tx, active
      ensures Valid()
      ensures accepted <==> isOpen && old(upperOpen) && old(tx.IsIdle())
      ensures accepted ==> !CanTransmitSessionData()
      ensures !accepted ==> unchanged(this) && unchanged(tx) && unchanged(active)
      ensures state == WaitForAuthReply ==> old(state) == WaitForAuthReply
      ensures old(state) == BadConfiguration ==> state == BadConfiguration
      ensures Continues(old(ActiveSlot()), ActiveSlot()) && Activations() == old(Activations())
      ensures accepted ==> old(trace) + [TookOver(data)] <= trace
      ensures Books() == old(Books()).(writes := old(Books()).writes + if accepted then [data] else [])
    {
      hide LoanAfter, LedgerAfter, ActivationAfter, IntakeAfter, AccountAfter, TransfersOk, IntakeFits, Numbered, FormatNonced;
      if !(isOpen && upperOpen && tx.IsIdle()) {
        return false;
      }
      TakeOverStep(LedgerAfter(trace), data);
      tx.Initialize(data);
      Emit(TookOver(data));
      var _ := CheckTransmit();
      return true;
    }

    // ---- Receiving ----

    /** The reply to the request: derive a session and authenticate over it. */
    method OnReplyMessage()
      requires Working() && TimersMatch() && Awake() && initiator && lowerReady && !owed
      modifies `state, `timer, `lowerReady, `trace, tx, pending
      ensures Working() && TimersMatch() && Awake()
      ensures if old(state) == WaitForBeginReply then state in {WaitForAuthReply, WaitForRetry} else state == old(state)
      ensures state == WaitForAuthReply && old(state) == WaitForBeginReply ==> pending.valid
      ensures Steady()
    {
      hide LoanOk, TxOk, ActivationOk, IntakeOk, ActivationAfter, AccountAfter, Session.Valid, AfterFormat, FormatNonced;
      if state != WaitForBeginReply {
        return;
      }
      timer := NotRunning;
      var ok := HandshakeInitialize();
      if !ok {
        Retry();
        return;
      }
      var now;
      ok, now := TransmitSessionAuth(pending);
      if !ok {
        Retry();
        return;
      }
      timer := ResponseTimer;
      state := WaitForAuthReply;
    }

    method OnErrorMessage()
      requires Working() && TimersMatch() && Awake() && initiator
      modifies `state, `timer
      ensures Working() && TimersMatch() && Awake()
      ensures state == if old(state) in {WaitForBeginReply, WaitForAuthReply} then WaitForRetry else old(state)
    {
      hide LoanOk, TxOk, ActivationOk, IntakeOk, ActivationAfter, AccountAfter, Session.Valid;
      if state in {WaitForBeginReply, WaitForAuthReply} {
        timer := NotRunning;
        Retry();
      }
    }

    /** Have the pending session judge a message that is to authenticate the peer. */
    method ValidateAuth(m: SessionData, now: int) returns (r: Validated)
      requires Parts()
      modifies pending
      ensures Parts()
      ensures r == Validate(old(pending.View()), pending.config, m, now, true)
      ensures pending.View() == AfterValidate(old(pending.View()), pending.config, m, now, true)
    {
      hide LoanAfter, LedgerAfter, ActivationAfter, IntakeAfter, AccountAfter, TransfersOk, IntakeFits, Numbered, Validate;
      r := pending.ValidateSessionAuth(m, now);
    }

    /** Hold a text for the upper layer, which has read everything before it. */
    method PassOn(text: seq<Byte>)
      requires Parts() && payload == [] && text != []
      modifies `payload, `trace
      ensures Parts() && payload == text
      ensures old(trace) <= trace && Activations() == old(Activations())
      ensures Books() == Accepting(old(Books()), [text])
    {
      hide LoanAfter, LedgerAfter, ActivationAfter, IntakeAfter, AccountAfter, TransfersOk, IntakeFits, Numbered, IntakeStep;
      assert !upperProcessing by { NothingProcessed(IntakeAfter(trace), upperProcessing); }
      TextInStep(IntakeAfter(trace), text);
      payload := text;
      Emit(TextIn(text));
    }

    /** A text that is accepted and not passed on. */
    ghost method GiveUp(text: seq<Byte>)
      requires Parts() && payload == [] && text != []
      modifies `trace
      ensures Parts() && old(trace) <= trace && Activations() == old(Activations())
      ensures Books() == Accepting(old(Books()), [text])
    {
      hide LoanAfter, LedgerAfter, ActivationAfter, IntakeAfter, AccountAfter, TransfersOk, IntakeFits, Numbered, IntakeStep;
      assert !upperProcessing by { NothingProcessed(IntakeAfter(trace), upperProcessing); }
      TextInStep(IntakeAfter(trace), text);
      Emit(TextIn(text));
      Emit(TextLost);
    }

    method CompleteHandshake(ghost s: State, ghost m: SessionData, ghost now: int, received: seq<Byte>)
      requires Working() && initiator && isOpen && timer == NotRunning && state == WaitForAuthReply && !sessionTimer && payload == []
      requires Validate(s, pending.config, m, now, true).Accepted? && pending.View() == AfterValidate(s, pending.config, m, now, true)
      modifies `state, `sessionTimer, `handshakeRequired, `trace, `upperOpen, `payload, `active, `pending, first, second
      ensures Working() && TimersMatch() && Awake()
      ensures active == old(pending) && active.View() == old(pending.View()) && s.valid && m.metadata.nonce == 0
      ensures state == Idle && sessionTimer && upperOpen && payload == received
      ensures Activations() == old(Activations()) + 1 && old(trace) <= trace
      ensures Books() == Accepting(old(Books()), if received != [] then [received] else [])
    {
      hide Parts, ActivationAfter, AccountAfter, Validate, Session.Valid;
      ActivatePending(s, m, now);
      handshakeRequired := false;
      sessionTimer := true;
      UpperOnLowerOpen();
      if received != [] {
        PassOn(received);
      }
      state := Idle;
    }

    /** The peer's first message over the pending session completes the handshake of an initiator. */
    method OnAuthMessage(m: SessionData, now: int) returns (activated: bool)
      requires Working() && TimersMatch() && Awake() && initiator && payload == []
      modifies `state, `timer, `sessionTimer, `handshakeRequired, `trace, `upperOpen, `payload, `active, `pending, first, second
      ensures Working() && TimersMatch() && Awake()
      ensures old(state) == BadConfiguration ==> state == BadConfiguration
      ensures activated <==> old(state) == WaitForAuthReply && Validate(old(pending.View()), old(pending).config, m, now, true).Accepted?
      ensures !activated ==> active == old(active) && active.View() == old(active.View()) && payload == [] && trace == old(trace)
      ensures !activated ==> state == if old(state) == WaitForAuthReply then WaitForRetry else old(state)
      ensures Activations() == old(Activations()) + if activated then 1 else 0
      ensures activated ==>
                && m.metadata.nonce == 0 && old(pending.valid)
                && active == old(pending) && active.View() == AfterValidate(old(pending.View()), active.config, m, now, true)
                && state == Idle && sessionTimer && upperOpen
                && payload == Validate(old(pending.View()), active.config, m, now, true).payload
                && Books() == Accepting(old(Books()), TextOf(Validate(old(pending.View()), active.config, m, now, true)))
      ensures old(trace) <= trace
    {
      hide LoanOk, TxOk, ActivationOk, IntakeOk, ActivationAfter, AccountAfter, Session.Valid, Validate;
      if state != WaitForAuthReply {
        return false;
      }
      timer := NotRunning;
      ghost var before := pending.View();
      var r := ValidateAuth(m, now);
      if r.Rejected? {
        Retry();
        return false;
      }
      CompleteHandshake(before, m, now, r.payload);
      return true;
    }

    /** What an error reply does: one frame goes out, if its six octets fit. */
    function ErrorActions(): seq<Action> {
      if ERROR_SIZE <= capacity then [Wrote, StartedTx([])] else [Wrote]
    }

    method ReplyWithHandshakeError() returns (written: bool)
      requires Parts() && lowerReady
      modifies `lowerReady, `trace
      ensures Parts() && lowerReady == !written && Steady()
      ensures trace == old(trace) + if written then [Wrote, StartedTx([])] else [Wrote]
      ensures written <==> ERROR_SIZE <= capacity
    {
      hide LoanOk, TxOk, ActivationOk, IntakeOk, ActivationAfter, AccountAfter, Session.Valid;
      written := WriteFrame(ERROR_SIZE);
      if written {
        var _ := Transmit();
        assert trace == old(trace) + [Wrote, StartedTx([])];
      }
    }

    /** A responder answers a request with a reply or with an error; the active session is not touched. */
    method OnRequestMessage(majorVersion: nat)
      requires Working() && TimersMatch() && !initiator && lowerReady
      modifies `lowerReady, `trace, pending
      ensures Working() && TimersMatch()
      ensures majorVersion != 0 ==>
                && pending.View() == old(pending.View())
                && trace == old(trace) + ErrorActions()
      ensures Steady()
    {
      hide LoanOk, TxOk, ActivationOk, IntakeOk, ActivationAfter, AccountAfter, Session.Valid;
      if majorVersion != 0 {
        var _ := ReplyWithHandshakeError();
        return;
      }
      var agreeable: bool, ok := *, false;
      if agreeable {
        var size: nat := *;
        ok := WriteFrame(size);
        if ok {
          ok := HandshakeInitialize();
        }
      }
      if ok {
        var _ := Transmit();
      } else {
        var _ := ReplyWithHandshakeError();
      }
    }

    /** The initiator's first message over the pending session. The responder authenticates in turn, and
        opens its upper layer exactly when it can format that message at the time the clock reads. */
    method OnAuthRequest(m: SessionData, now: int) returns (activated: bool, sentAt: int)
      requires Working() && TimersMatch() && !initiator && lowerReady && !owed && payload == []
      modifies `lowerReady, `trace, `upperOpen, `payload, `active, `pending, first, second, tx
      ensures Working() && TimersMatch()
      ensures Activations() == old(Activations()) + if activated then 1 else 0
      ensures old(trace) <= trace
      ensures Books() == Accepting(old(Books()), TextOf(Validate(old(pending.View()), old(pending).config, m, now, true)))
      ensures activated <==> Validate(old(pending.View()), old(pending).config, m, now, true).Accepted?
      ensures !activated ==> active == old(active) && active.View() == old(active.View()) && payload == []
      ensures !activated ==> trace == old(trace) + if old(pending.valid) then [] else ErrorActions()
      ensures activated ==>
                var s := AfterValidate(old(pending.View()), active.config, m, now, true);
                && m.metadata.nonce == 0 && old(pending.valid) && s.valid && s.keys == old(pending.keys)
                && active == old(pending) && active.View() == AfterFormat(s, active.config, sentAt, old(tx.remainder), true)
                && (if FormatNonced(s, active.config, sentAt, old(tx.remainder), true).Formed? then
                      upperOpen && payload == Validate(old(pending.View()), active.config, m, now, true).payload
                    else upperOpen == old(upperOpen) && payload == [])
    {
      hide LoanOk, TxOk, ActivationOk, IntakeOk, ActivationAfter, AccountAfter, Session.Valid, Validate, FormatNonced, AfterFormat;
      activated, sentAt := false, 0;
      if !pending.valid {
        NothingAccepted(pending.View(), pending.config, m, now, true);
        var _ := ReplyWithHandshakeError();
        return;
      }
      ghost var before := pending.View();
      var r := ValidateAuth(m, now);
      if r.Accepted? {
        activated := true;
        sentAt := AnswerAuth(before, m, now, r.payload);
      }
    }

    method AnswerAuth(ghost s: State, ghost m: SessionData, ghost now: int, received: seq<Byte>) returns (sentAt: int)
      requires Working() && !initiator && lowerReady && !owed && payload == []
      requires Validate(s, pending.config, m, now, true).Accepted? && pending.View() == AfterValidate(s, pending.config, m, now, true)
      modifies `lowerReady, `trace, `upperOpen, `payload, `active, `pending, first, second, tx
      ensures Working() && Activations() == old(Activations()) + 1
      ensures s.valid && m.metadata.nonce == 0 && active == old(pending)
      ensures active.View() == AfterFormat(old(pending.View()), active.config, sentAt, old(tx.remainder), true)
      ensures if FormatNonced(old(pending.View()), active.config, sentAt, old(tx.remainder), true).Formed? then
                upperOpen && payload == received
              else upperOpen == old(upperOpen) && payload == []
      ensures old(trace) <= trace
      ensures Books() == Accepting(old(Books()), if received != [] then [received] else [])
    {
      hide LoanOk, TxOk, ActivationOk, IntakeOk, ActivationAfter, AccountAfter, Session.Valid, Validate, FormatNonced, AfterFormat;
      ActivatePending(s, m, now);
      var ok;
      ok, sentAt := TransmitSessionAuth(active);
      if !ok {
        if received != [] {
          GiveUp(received);
        }
        return;
      }
      UpperOnLowerOpen();
      if received != [] {
        PassOn(received);
      }
    }

    method OnSessionData(m: SessionData, now: int)
      requires Working() && TimersMatch() && Awake() && lowerReady && payload == []
      modifies `state, `timer, `sessionTimer, `handshakeRequired, `lowerReady, `trace, `payload, active
      ensures Working() && TimersMatch() && Awake()
      ensures old(state) == BadConfiguration ==> state == BadConfiguration
      ensures active.View() == AfterValidate(old(active.View()), active.config, m, now, false)
      ensures var r := DataResult(Validate(old(active.View()), active.config, m, now, false));
              && payload == (if r.Accepted? then r.payload else [])
              && Books() == Accepting(old(Books()), TextOf(r))
      ensures Continues(old(ActiveSlot()), ActiveSlot()) && Activations() == old(Activations())
      ensures old(trace) <= trace
    {
      hide LoanAfter, LedgerAfter, ActivationAfter, IntakeAfter, AccountAfter, TransfersOk, IntakeFits, Numbered, Validate;
      ValidateKeeps(active.View(), active.config, m, now, false);
      if !active.valid {
        NothingAccepted(active.View(), active.config, m, now, false);
      }
      var r := active.ValidateSessionData(m, now);
      if r.Rejected? {
        return;
      }
      PassOn(r.payload);
      OnSessionNonceChange(active.rxNonce, active.txNonce);
    }

    /** Session data with nonce 0 authenticates, any other is user data: what the session that judges it
        says is what happens. */
    method OnSessionMessage(m: SessionData, now: int) returns (activated: bool)
      requires Working() && TimersMatch() && Awake() && lowerReady && !owed && payload == []
      modifies this, tx, first, second
      ensures Working() && TimersMatch() && Awake() && !owed && inbox == old(inbox) && isOpen == old(isOpen)
      ensures old(state) == BadConfiguration ==> state == BadConfiguration
      ensures old(trace) <= trace && Books() == Accepting(old(Books()), TextOf(Verdict(m, now, old(JudgeOf(m)))))
      ensures Continues(old(ActiveSlot()), ActiveSlot()) && Activations() == old(Activations()) + if activated then 1 else 0
      ensures activated <==> m.metadata.nonce == 0 && Verdict(m, now, old(JudgeOf(m))).Accepted?
      ensures activated ==> active == old(pending) && old(pending.valid) && active.keys == old(pending.keys)
      ensures !activated ==> active == old(active)
      ensures !activated && m.metadata.nonce == 0 ==> active.View() == old(active.View()) && payload == []
      ensures m.metadata.nonce == 0 && initiator ==>
                state == if activated then Idle else if old(state) == WaitForAuthReply then WaitForRetry else old(state)
      ensures !activated && m.metadata.nonce == 0 ==> trace == old(trace) + if initiator || old(pending.valid) then [] else ErrorActions()
      ensures activated && initiator ==> upperOpen && payload == Verdict(m, now, old(JudgeOf(m))).payload
      ensures m.metadata.nonce != 0 ==>
                var r := Verdict(m, now, old(JudgeOf(m)));
                && active.View() == AfterValidate(old(active.View()), active.config, m, now, false)
                && payload == if r.Accepted? then r.payload else []
    {
      hide LoanOk, TxOk, ActivationOk, IntakeOk, ActivationAfter, AccountAfter, Session.Valid, Validate, FormatNonced;
      activated := false;
      if m.metadata.nonce != 0 {
        OnSessionData(m, now);
      } else if initiator {
        activated := OnAuthMessage(m, now);
      } else {
        var sentAt;
        activated, sentAt := OnAuthRequest(m, now);
      }
    }

    /** Handshake messages, whatever comes of them, leave the active session as it is; and each has its
        effect. */
    method OnHandshakeMessage(message: seq<Byte>)
      requires Working() && TimersMatch() && Awake() && lowerReady && !owed && message != []
      modifies `state, `timer, `lowerReady, `trace, tx, pending
      ensures Working() && TimersMatch() && Awake() && Steady()
      ensures state == WaitForAuthReply && old(state) != WaitForAuthReply ==> pending.valid
      ensures Answered(message, old(state), state)
      ensures NeedsError(message) ==> trace == old(trace) + ErrorActions()
    {
      hide LoanOk, TxOk, ActivationOk, IntakeOk, ActivationAfter, AccountAfter, Session.Valid, ReadMessage, ReadRequest;
      if initiator {
        if message[0] == REPLY_HANDSHAKE_BEGIN {
          if ReadMessage(REPLY_HANDSHAKE_BEGIN, REPLY_FIELDS, message).Ok? {
            OnReplyMessage();
          }
        } else if message[0] == REPLY_HANDSHAKE_ERROR {
          if ReadMessage(REPLY_HANDSHAKE_ERROR, ERROR_FIELDS, message).Ok? {
            OnErrorMessage();
          }
        }
      } else if message[0] == REQUEST_HANDSHAKE_BEGIN {
        var request := ReadRequest(message);
        if request.None? {
          var _ := ReplyWithHandshakeError();
        } else {
          OnRequestMessage(request.value.version.major);
        }
      }
    }

    /** What a message does to the handshake: a readable reply counts while it is waited for, a readable
        error while anything is, and nothing else counts at all. */
    predicate Answered(message: seq<Byte>, before: HandshakeState, after: HandshakeState) {
      if initiator && message != [] && before == WaitForBeginReply && message[0] == REPLY_HANDSHAKE_BEGIN
         && ReadMessage(REPLY_HANDSHAKE_BEGIN, REPLY_FIELDS, message).Ok?
      then after in {WaitForAuthReply, WaitForRetry}
      else if initiator && message != [] && before in {WaitForBeginReply, WaitForAuthReply} && message[0] == REPLY_HANDSHAKE_ERROR
              && ReadMessage(REPLY_HANDSHAKE_ERROR, ERROR_FIELDS, message).Ok?
      then after == WaitForRetry
      else after == before
    }

    /** A request that a responder cannot read or whose version it does not know. */
    predicate NeedsError(message: seq<Byte>) {
      !initiator && message != [] && message[0] == REQUEST_HANDSHAKE_BEGIN
      && (ReadRequest(message).None? || ReadRequest(message).value.version.major != 0)
    }

    /** One message, at the time the clock reads. Only a session message with nonce 0 that the pending
        session accepts replaces the active session, only session messages change it at all, and every
        message has exactly the effect that the session judging it, or its kind, calls for. */
    method Process(message: seq<Byte>) returns (now: int)
      requires Working() && TimersMatch() && Awake() && lowerReady && !owed && payload == [] && Even()
      modifies this, tx, first, second
      ensures Working() && TimersMatch() && Awake() && !owed && Even() && inbox == old(inbox) && isOpen == old(isOpen)
      ensures old(state) == BadConfiguration ==> state == BadConfiguration
      ensures Continues(old(ActiveSlot()), ActiveSlot())
      ensures old(trace) + [Read(message, now, old(JudgeOfOctets(message)))] <= trace
      ensures Books() == Accepting(AccountStep(old(Books()), Read(message, now, old(JudgeOfOctets(message)))),
                                   TextDue(message, now, old(JudgeOfOctets(message))))
      ensures ReadSessionData(message).None? ==>
                && active == old(active) && active.View() == old(active.View()) && payload == [] && Activations() == old(Activations())
                && Answered(message, old(state), state)
      ensures NeedsError(message) ==>
                trace == old(trace) + [Read(message, now, None)] + ErrorActions()
      ensures ReadSessionData(message).Some? ==>
                var m := ReadSessionData(message).value;
                var r := Verdict(m, now, old(JudgeOfOctets(message)));
                if m.metadata.nonce == 0 then
                  && Activations() == old(Activations()) + (if r.Accepted? then 1 else 0)
                  && (initiator ==> state == if r.Accepted? then Idle else if old(state) == WaitForAuthReply then WaitForRetry else old(state))
                  && (!r.Accepted? ==> trace == old(trace) + [Read(message, now, old(JudgeOfOctets(message)))]
                                                  + if initiator || old(pending.valid) then [] else ErrorActions())
                  && (initiator && r.Accepted? ==> upperOpen && payload == r.payload)
                  && (if r.Accepted? then active == old(pending) && old(pending.valid) && active.keys == old(pending.keys)
                      else active == old(active) && active.View() == old(active.View()) && payload == [])
                else
                  && Activations() == old(Activations()) && active == old(active)
                  && active.View() == AfterValidate(old(active.View()), active.config, m, now, false)
                  && payload == if r.Accepted? then r.payload else []
    {
      hide LoanOk, TxOk, ActivationOk, IntakeOk, ActivationAfter, AccountAfter, Session.Valid, ReadSessionData, ReadMessage, ReadRequest,
           Validate, AfterValidate;
      now := *;
      MarkRead(message, now, JudgeOfOctets(message));
      if message == [] {
        OtherFunction(message);
      } else if message[0] == SESSION_DATA {
        var m := ReadSessionData(message);
        if m.Some? {
          var _ := OnSessionMessage(m.value, now);
        }
      } else {
        OtherFunction(message);
        OnHandshakeMessage(message);
      }
    }

    ghost method MarkRead(message: seq<Byte>, now: int, judge: Option<Judge>)
      requires Parts() && JudgedRightly(message, judge)
      modifies `trace
      ensures Parts() && trace == old(trace) + [Read(message, now, judge)] && Activations() == old(Activations())
      ensures Books() == AccountStep(old(Books()), Read(message, now, judge))
    {
      hide LoanAfter, LedgerAfter, ActivationAfter, IntakeAfter, AccountAfter, TransfersOk, IntakeFits, Numbered, TextDue, JudgedRightly;
      Emit(Read(message, now, judge));
    }

    /** A reply could be sent at once, the upper layer has nothing unread, and there is something to read. */
    predicate CanRead()
      reads `lowerReady, `payload, `inbox
    {
      lowerReady && payload == [] && inbox != []
    }

    /** Read for as long as possible, and if it is not possible do nothing at all. */
    method TryReadFromLower()
      requires Working() && TimersMatch() && Awake() && !owed && Even()
      modifies this, tx, first, second
      ensures Working() && TimersMatch() && Awake() && !owed && isOpen == old(isOpen)
      ensures !CanRead() && (old(CanRead()) ==> |inbox| < |old(inbox)|)
      ensures !old(CanRead()) ==> unchanged(this) && unchanged(tx) && unchanged(first) && unchanged(second)
      ensures old(state) == BadConfiguration ==> state == BadConfiguration
      ensures Continues(old(ActiveSlot()), ActiveSlot()) && OnlyRead() && Even()
    {
      hide LoanOk, TxOk, ActivationOk, IntakeOk, ActivationAfter, AccountAfter, Session.Valid, Kept;
      if !CanRead() {
        SlotContinues();
        return;
      }
      ReadOne();
      while CanRead()
        invariant Working() && TimersMatch() && Awake() && !owed && isOpen == old(isOpen)
        invariant |inbox| < |old(inbox)|
        invariant old(state) == BadConfiguration ==> state == BadConfiguration
        invariant Continues(old(ActiveSlot()), ActiveSlot()) && OnlyRead() && Even()
        decreases |inbox|
      {
        ghost var before := ActiveSlot();
        ReadOne();
        ContinuesOn(old(ActiveSlot()), before, ActiveSlot());
      }
    }

    method ReadOne()
      requires Working() && TimersMatch() && Awake() && !owed && Even() && CanRead()
      modifies this, tx, first, second
      ensures Working() && TimersMatch() && Awake() && !owed && isOpen == old(isOpen)
      ensures |inbox| < |old(inbox)|
      ensures old(state) == BadConfiguration ==> state == BadConfiguration
      ensures Continues(old(ActiveSlot()), ActiveSlot()) && OnlyRead() && Even()
    {
      hide LoanOk, TxOk, ActivationOk, IntakeOk, ActivationAfter, AccountAfter, Session.Valid, ReadSessionData,
           Continues, Shape, Quiet, JudgeOfOctets, TextDue, Verdict, AfterValidate, Answered, NeedsError;
      var message := inbox[0];
      inbox := inbox[1..];
      var _ := Process(message);
      assert old(Books().octets) + ([message] + old(inbox)[1..]) == old(Books().octets) + [message] + old(inbox)[1..];
    }

    lemma SlotContinues()
      requires Working()
      ensures Continues(ActiveSlot(), ActiveSlot())
    {}

    // ---- Events ----

    method OnLowerOpen()
      requires Valid()
      modifies `isOpen, `state, `timer, `handshakeRequired, `lowerReady, `trace
      ensures Valid() && isOpen && Steady()
      ensures old(state) == BadConfiguration ==> state == BadConfiguration
      ensures initiator && !old(isOpen) ==> state != Idle || handshakeRequired
      ensures state == WaitForAuthReply ==> old(state) == WaitForAuthReply
    {
      hide LoanOk, TxOk, ActivationOk, IntakeOk, ActivationAfter, AccountAfter, Session.Valid;
      if !isOpen {
        isOpen := true;
        if initiator {
          OnHandshakeRequired();
        }
      }
    }

    method OnLowerClose()
      requires Valid()
      modifies this, tx, first, second
      ensures Valid() && !isOpen && inbox == old(inbox) && state == Idle && Continues(old(ActiveSlot()), ActiveSlot()) && Steady()
      ensures old(isOpen) ==> !upperOpen && !active.valid && !pending.valid && payload == [] && tx.IsIdle()
      ensures !old(isOpen) ==> unchanged(this) && unchanged(tx) && unchanged(first) && unchanged(second)
    {
      hide Parts, Shape, Kept, ActivationAfter, AccountAfter;
      if isOpen {
        isOpen := false;
        ResetHandshake();
        TearDown();
      } else {
        SlotContinues();
      }
    }

    method TearDown()
      requires Parts()
      modifies `payload, `upperOpen, `upperProcessing, `trace, `owed, tx, first, second
      ensures Parts() && !upperOpen && tx.IsIdle() && !owed && Steady()
      ensures !active.valid && !pending.valid && payload == []
    {
      hide Parts, ActivationAfter, AccountAfter;
      ResetSessions();
      DiscardText();
      UpperOnLowerClose();
      ResetTx();
    }

    method ResetHandshake()
      modifies `state, `timer, `sessionTimer, `handshakeRequired
      ensures state == Idle && timer == NotRunning && !sessionTimer && !handshakeRequired
    {
      state, timer, sessionTimer, handshakeRequired := Idle, NotRunning, false, false;
    }

    method DiscardText()
      requires Parts()
      modifies `payload, `upperProcessing, `trace
      ensures Parts() && payload == [] && Steady()
    {
      hide LoanAfter, LedgerAfter, ActivationAfter, IntakeAfter, AccountAfter, TransfersOk, IntakeFits, Numbered, IntakeStep;
      TextLostStep(IntakeAfter(trace), payload, upperProcessing);
      payload, upperProcessing := [], false;
      Emit(TextLost);
    }

    method ResetSessions()
      requires Parts()
      modifies first, second
      ensures Parts() && !active.valid && !pending.valid
    {
      hide LoanOk, TxOk, IntakeOk, ActivationAfter, AccountAfter, Numbered;
      StillNumbered(ActivationAfter(trace), pending.valid, pending.txNonce, active.valid, active.txNonce,
                    false, pending.txNonce, false, active.txNonce);
      active.Reset();
      pending.Reset();
    }

    method ResetTx()
      requires Parts() && !upperOpen
      modifies tx, `trace, `owed
      ensures Parts() && tx.IsIdle() && !owed && Steady()
    {
      hide LoanAfter, LedgerAfter, ActivationAfter, IntakeAfter, AccountAfter, TransfersOk, IntakeFits, Numbered;
      DroppedStep(LedgerAfter(trace), tx.transmitting, tx.remainder, owed);
      tx.Reset();
      owed := false;
      Emit(Dropped);
    }

    method OnLowerRxReady()
      requires Valid()
      modifies this, tx, first, second
      ensures Valid() && isOpen == old(isOpen) && Continues(old(ActiveSlot()), ActiveSlot())
      ensures OnlyRead() && (isOpen ==> !CanRead())
      ensures !(isOpen && old(CanRead())) ==> unchanged(this) && unchanged(tx) && unchanged(first) && unchanged(second)
      ensures old(state) == BadConfiguration ==> state == BadConfiguration
    {
      hide LoanOk, TxOk, ActivationOk, IntakeOk, ActivationAfter, AccountAfter, Session.Valid, Kept;
      if isOpen {
        TryReadFromLower();
      } else {
        SlotContinues();
      }
    }

    /** The lower layer gives the frame back; true when this completes the data of the upper layer. */
    method TakeBack() returns (done: bool)
      requires Parts() && (!isOpen ==> tx.IsIdle()) && !owed
      modifies `lowerReady, `trace, `owed, tx
      ensures Parts() && lowerReady && owed == done && Steady() && trace == old(trace) + [Released]
      ensures !isOpen ==> tx.IsIdle() && !done
    {
      hide LoanAfter, LedgerAfter, ActivationAfter, IntakeAfter, AccountAfter, TransfersOk, IntakeFits, Numbered, LedgerStep;
      ReleasedStep(LedgerAfter(trace), tx.transmitting, tx.remainder, owed, upperOpen);
      Emit(Released);
      lowerReady := true;
      done := false;
      if isOpen {
        done := tx.OnTxComplete();
        owed := done;
      }
    }

    /** Tell the upper layer that its data is on its way, if it is still there. */
    method UpperOnTxReady()
      requires Parts() && owed
      modifies `trace, `owed
      ensures Parts() && !owed && Steady()
    {
      hide LoanAfter, LedgerAfter, ActivationAfter, IntakeAfter, AccountAfter, TransfersOk, IntakeFits, Numbered;
      TransfersOwe(LedgerAfter(trace), tx.transmitting, tx.remainder, upperOpen);
      ReadyStep(LedgerAfter(trace), upperOpen);
      if upperOpen {
        Emit(TxReadyUp);
      }
      owed := false;
    }

    method OnPreTxReady()
      requires Working() && TimersMatch() && isOpen && (initiator && state == Idle ==> sessionTimer || handshakeRequired)
      modifies `state, `timer, `handshakeRequired, `lowerReady, `trace
      ensures Working() && TimersMatch() && Awake() && Steady()
      ensures state == WaitForAuthReply ==> old(state) == WaitForAuthReply
      ensures old(state) == BadConfiguration ==> state == BadConfiguration
    {
      hide LoanOk, TxOk, ActivationOk, IntakeOk, ActivationAfter, AccountAfter, Session.Valid;
      if initiator && handshakeRequired {
        OnHandshakeRequired();
      }
    }

    /** The frame came back: report a completed transfer, start a deferred handshake, read, transmit. */
    method OnLowerTxReady()
      requires Valid()
      modifies this, tx, first, second
      ensures Valid() && isOpen == old(isOpen) && Continues(old(ActiveSlot()), ActiveSlot())
      ensures OnlyRead() && old(trace) + [Released] <= trace
      ensures isOpen ==> !CanRead() && !CanTransmitSessionData()
      ensures old(payload) != [] ==> DeafSince(old(payload), old(inbox), old(Activations()), old(state))
      ensures old(state) == BadConfiguration ==> state == BadConfiguration
    {
      hide LoanOk, TxOk, ActivationOk, IntakeOk, ActivationAfter, AccountAfter, Session.Valid, Continues, FormatNonced, AfterFormat;
      SlotContinues();
      var done := TakeBack();
      if isOpen {
        Resume(done);
        ReadAndTransmit();
      }
    }

    method ReadAndTransmit()
      requires Working() && TimersMatch() && Awake() && !owed && Even()
      modifies this, tx, first, second
      ensures Working() && TimersMatch() && Awake() && !owed && isOpen == old(isOpen)
      ensures Continues(old(ActiveSlot()), ActiveSlot()) && !CanRead() && !CanTransmitSessionData()
      ensures OnlyRead() && Even()
      ensures old(payload) != [] ==> DeafSince(old(payload), old(inbox), old(Activations()), old(state))
      ensures old(state) == BadConfiguration ==> state == BadConfiguration
    {
      hide LoanOk, TxOk, ActivationOk, IntakeOk, ActivationAfter, AccountAfter, Session.Valid, Continues, FormatNonced, AfterFormat;
      TryReadFromLower();
      ghost var mid := ActiveSlot();
      var _ := CheckTransmit();
      ContinuesOn(old(ActiveSlot()), mid, ActiveSlot());
    }

    /** A deferred handshake goes first, then the upper layer hears of its completed data. */
    method Resume(done: bool)
      requires Working() && TimersMatch() && isOpen && owed == done
      requires initiator && state == Idle ==> sessionTimer || handshakeRequired
      modifies `state, `timer, `handshakeRequired, `lowerReady, `trace, `owed
      ensures Working() && TimersMatch() && Awake() && !owed && Steady()
      ensures old(state) == BadConfiguration ==> state == BadConfiguration
      ensures state == WaitForAuthReply ==> old(state) == WaitForAuthReply
    {
      hide LoanOk, TxOk, ActivationOk, IntakeOk, ActivationAfter, AccountAfter, Session.Valid;
      OnPreTxReady();
      if done {
        UpperOnTxReady();
      }
    }

    /** Nothing was read: the unread data, the messages and the number of activations are as they were,
        and the handshake did not get as far as waiting for authentication. */
    ghost predicate DeafSince(unread: seq<Byte>, messages: seq<seq<Byte>>, activations: nat, before: HandshakeState)
      reads this
    {
      && payload == unread && inbox == messages && Activations() == activations
      && (state == WaitForAuthReply ==> before == WaitForAuthReply)
    }

    /** The upper layer asks for received data, and is then done with what it got before. */
    method StartRxFromUpper() returns (data: seq<Byte>)
      requires Valid()
      modifies this, tx, first, second
      ensures Valid() && isOpen == old(isOpen) && Continues(old(ActiveSlot()), ActiveSlot())
      ensures old(state) == BadConfiguration ==> state == BadConfiguration
      ensures data == if old(upperProcessing) then [] else old(payload)
      ensures Moved([], if data != [] then [data] else [], []) && !CanRead()
      ensures old(payload) != [] && !old(upperProcessing) ==> DeafSince(old(payload), old(inbox), old(Activations()), old(state))
      ensures old(payload) == [] || old(upperProcessing) ==>
                if old(lowerReady) && old(inbox) != [] then |inbox| < |old(inbox)| else payload == [] && inbox == old(inbox)
    {
      hide LoanOk, TxOk, ActivationOk, IntakeOk, ActivationAfter, AccountAfter, Session.Valid, Kept;
      SlotContinues();
      if upperProcessing {
        Forget();
      }
      if payload == [] {
        TryReadFromLower();
        return [];
      }
      HandOut();
      return payload;
    }

    /** The upper layer is done with what it got. */
    method Forget()
      requires Parts() && upperProcessing
      modifies `payload, `upperProcessing
      ensures Parts() && payload == [] && !upperProcessing
    {
      hide LoanAfter, LedgerAfter, ActivationAfter, IntakeAfter, AccountAfter, TransfersOk, Numbered;
      payload := [];
      upperProcessing := false;
    }

    method HandOut()
      requires Parts() && payload != [] && !upperProcessing
      modifies `upperProcessing, `trace
      ensures Parts() && upperProcessing && old(trace) <= trace && Activations() == old(Activations())
      ensures Books() == old(Books()).(outs := old(Books()).outs + [payload])
    {
      hide LoanAfter, LedgerAfter, ActivationAfter, IntakeAfter, AccountAfter, TransfersOk, IntakeFits, Numbered, IntakeStep;
      HandedOutStep(IntakeAfter(trace), payload);
      upperProcessing := true;
      Emit(HandedOut(payload));
    }

    /** Whenever the response timer fires, the initiator is waiting for a response. */
    method OnResponseTimeout()
      requires Valid() && timer == ResponseTimer
      modifies `state, `timer
      ensures Valid() && state == WaitForRetry
    {
      hide LoanOk, TxOk, ActivationOk, IntakeOk, ActivationAfter, AccountAfter, Session.Valid;
      timer := NotRunning;
      match state
      case WaitForBeginReply => Retry();
      case WaitForAuthReply => Retry();
      case _ => assert false;
    }

    /** What becomes of a handshake that is to start: it does if the lower layer is ready, and waits for it
        otherwise. */
    predicate Started(ready: bool, after: HandshakeState, required: bool) {
      if ready then after in {WaitForBeginReply, WaitForRetry, BadConfiguration} else after == Idle && required
    }

    /** Whenever the retry timer fires, the initiator is waiting to retry. */
    method OnRetryTimeout()
      requires Valid() && timer == RetryTimer
      modifies `state, `timer, `handshakeRequired, `lowerReady, `trace
      ensures Valid() && Steady() && Started(old(lowerReady), state, handshakeRequired)
    {
      hide LoanOk, TxOk, ActivationOk, IntakeOk, ActivationAfter, AccountAfter, Session.Valid;
      timer := NotRunning;
      match state {
        case WaitForRetry => state := Idle;
        case _ => assert false;
      }
      OnHandshakeRequired();
    }

    method OnSessionTimeout()
      requires Valid() && sessionTimer
      modifies `state, `timer, `sessionTimer, `handshakeRequired, `lowerReady, `trace
      ensures Valid() && Steady() && Started(old(lowerReady), state, handshakeRequired)
    {
      hide LoanOk, TxOk, ActivationOk, IntakeOk, ActivationAfter, AccountAfter, Session.Valid;
      sessionTimer := false;
      OnHandshakeRequired();
    }

    /** Does e let a layer with unread data read again? Only a close, or a second read by the upper layer. */
    predicate Unblocks(e: Event)
      reads `upperProcessing
    {
      e.LowerClose? || (e.UpperRead? && upperProcessing)
    }

    /** One event, what an upper layer that reads gets, and whether data that it hands over is taken. A
        timeout can only happen while its timer runs. */
    method Handle(e: Event) returns (data: seq<Byte>, accepted: bool)
      requires Valid()
      modifies this, tx, first, second
      ensures Valid() && Continues(old(ActiveSlot()), ActiveSlot())
      ensures accepted <==> e.UpperWrite? && old(isOpen) && old(upperOpen) && old(tx.IsIdle())
      ensures Moved(Arrived(e), if data != [] then [data] else [], if accepted then [e.data] else [])
      ensures Handled(e, data, accepted)
      ensures old(state) == BadConfiguration && !e.LowerClose? ==> state == BadConfiguration
      ensures e in {LowerOpen, ResponseTimeout, RetryTimeout, SessionTimeout} ==> active == old(active) && active.View() == old(active.View())
      ensures old(payload) != [] && !old(Unblocks(e)) ==>
                DeafSince(old(payload), old(inbox) + Arrived(e), old(Activations()), old(state))
    {
      hide LoanOk, TxOk, ActivationOk, IntakeOk, ActivationAfter, AccountAfter, Session.Valid, TimersMatch, Awake, Kept;
      SlotContinues();
      data, accepted := [], false;
      match e
      case LowerOpen => OnLowerOpen();
      case LowerClose => OnLowerClose();
      case LowerRx(message) =>
        Deliver(message);
        OnLowerRxReady();
      case LowerTxReady => OnLowerTxReady();
      case UpperWrite(offered) => accepted := StartTxFromUpper(offered);
      case UpperRead => data := StartRxFromUpper();
      case _ => HandleTimeout(e);
    }

    method HandleTimeout(e: Event)
      requires Valid() && e in {ResponseTimeout, RetryTimeout, SessionTimeout}
      modifies `state, `timer, `sessionTimer, `handshakeRequired, `lowerReady, `trace
      ensures Valid() && Steady() && Handled(e, [], false)
      ensures old(state) == BadConfiguration ==> state == BadConfiguration
      ensures state == WaitForAuthReply ==> old(state) == WaitForAuthReply
    {
      hide LoanOk, TxOk, ActivationOk, IntakeOk, ActivationAfter, AccountAfter, Session.Valid, TimersMatch, Awake;
      TimedState();
      match e
      case ResponseTimeout => if timer == ResponseTimer { OnResponseTimeout(); }
      case RetryTimeout => if timer == RetryTimer { OnRetryTimeout(); }
      case SessionTimeout => if sessionTimer { OnSessionTimeout(); }
    }

    /** What an event does at once: nothing that could be read or transmitted is left over. */
    twostate predicate Handled(e: Event, data: seq<Byte>, accepted: bool)
      reads this, tx, first, second
      requires Shape()
    {
      match e
      case LowerOpen => isOpen && (initiator && !old(isOpen) ==> state != Idle || handshakeRequired)
      case LowerClose => !isOpen && (old(isOpen) ==> !upperOpen && !active.valid && !pending.valid && payload == [] && tx.IsIdle())
      case LowerRx(_) => isOpen ==> !CanRead()
      case LowerTxReady => old(trace) + [Released] <= trace && (isOpen ==> !CanRead() && !CanTransmitSessionData())
      case UpperWrite(offered) => accepted ==> old(trace) + [TookOver(offered)] <= trace && !CanTransmitSessionData()
      case UpperRead => !CanRead() && data == if old(upperProcessing) then [] else old(payload)
      case ResponseTimeout => old(timer) == ResponseTimer ==> state == WaitForRetry
      case RetryTimeout => old(timer) == RetryTimer ==> Started(old(lowerReady), state, handshakeRequired)
      case SessionTimeout => old(sessionTimer) ==> Started(old(lowerReady), state, handshakeRequired)
    }

    method Deliver(message: seq<Byte>)
      requires Valid()
      modifies `inbox
      ensures Valid() && inbox == old(inbox) + Arrived(LowerRx(message)) && Moved(Arrived(LowerRx(message)), [], [])
    {
      hide AccountAfter, Working;
      assert Books().octets + (inbox + [message]) == Books().octets + inbox + [message];
      if message != [] {
        inbox := inbox + [message];
      }
    }

    lemma TimedState()
      requires Valid()
      ensures timer != NotRunning || sessionTimer ==> state != BadConfiguration
    {}
  }

  lemma NothingProcessed(i: Intake, processing: bool)
    requires IntakeFits(i, [], processing)
    ensures !processing
  {}

  lemma TransfersOwe(l: Ledger, transmitting: bool, remainder: seq<Byte>, upperOpen: bool)
    requires TransfersOk(l, transmitting, remainder, true, upperOpen)
    ensures !transmitting && remainder == []
  {}

  /** What an event adds to the messages waiting at the lower layer. */
  function Arrived(e: Event): seq<seq<Byte>> {
    if e.LowerRx? && e.message != [] then [e.message] else []
  }

  lemma NothingAccepted(s: State, c: Config, m: SessionData, now: int, auth: bool)
    requires !s.valid
    ensures Validate(s, c, m, now, auth) == Rejected(NoValidSession)
  {}

  lemma OtherFunction(message: seq<Byte>)
    requires message == [] || message[0] != SESSION_DATA
    ensures ReadSessionData(message).None?
  {
    hide ReadFields;
  }

  // ---- Whole runs ----

  /** No frame is lent, and the frame buffer is not written, before the last loan came back. */
  ghost predicate LoansRespected(t: seq<Action>) {
    forall i, j :: 0 <= i < j < |t| && t[i].StartedTx? && (t[j].Wrote? || t[j].StartedTx?) ==> ReleasedBetween(t, i, j)
  }

  /** Every activated session was initialised and then authenticated, and is activated once. */
  ghost predicate ActivationsSound(t: seq<Action>) {
    forall j :: 0 <= j < |t| && t[j].Activated? ==>
      Proven(t[..j], t[j].id) && forall k :: 0 <= k < |t| && k != j ==> t[k] != t[j]
  }

  /** Every piece of user data but possibly the last is settled; of the last, what was handed down and
      what is left make up the data, unless the rest was dropped. */
  ghost predicate TransfersAccounted(t: seq<Action>, remainder: seq<Byte>) {
    var l := LedgerAfter(t);
    && !l.stray
    && (forall i :: 0 <= i < |l.transfers| - 1 ==> Settled(l.transfers[i]))
    && (l.transfers != [] ==> Sized(Last(l).fragments) && (Last(l).cut || Concat(Last(l).fragments) + remainder == Last(l).data))
  }

  /** The upper layer is told that it may hand over more only after all it handed over went down and came
      back, and nothing more goes down until it does. */
  ghost predicate ReportsLast(t: seq<Action>) {
    forall j :: 0 <= j < |t| && t[j].TxReadyUp? ==>
      && LedgerAfter(t[..j]).transfers != [] && Done(Last(LedgerAfter(t[..j])))
      && forall k :: j < k < |t| && t[k].StartedTx? && t[k].fragment != [] ==> TakenOverBetween(t, j, k)
  }

  lemma ReportsFollow(t: seq<Action>)
    requires !LedgerAfter(t).stray
    ensures ReportsLast(t)
  {
    hide LedgerAfter, TakenOverBetween, Done;
    forall j | 0 <= j < |t| && t[j].TxReadyUp?
      ensures LedgerAfter(t[..j]).transfers != [] && Done(Last(LedgerAfter(t[..j])))
      ensures forall k :: j < k < |t| && t[k].StartedTx? && t[k].fragment != [] ==> TakenOverBetween(t, j, k)
    {
      ReportMeans(t, j);
    }
  }

  lemma LoansFollow(t: seq<Action>)
    requires LoanAfter(t).kept
    ensures LoansRespected(t)
  {
    hide LoanAfter, ReleasedBetween;
    forall i, j | 0 <= i < j < |t| && t[i].StartedTx? && (t[j].Wrote? || t[j].StartedTx?) ensures ReleasedBetween(t, i, j) {
      LoanMeans(t, i, j);
    }
  }

  lemma ActivationsFollow(t: seq<Action>)
    requires ActivationAfter(t).ok
    ensures ActivationsSound(t)
  {
    hide ActivationAfter, Proven;
    forall j | 0 <= j < |t| && t[j].Activated?
      ensures Proven(t[..j], t[j].id) && forall k :: 0 <= k < |t| && k != j ==> t[k] != t[j]
    {
      ActivationMeans(t, j);
    }
  }

  lemma TransfersFollow(t: seq<Action>, transmitting: bool, remainder: seq<Byte>, upperOpen: bool)
    requires TransfersOk(LedgerAfter(t), transmitting, remainder, false, upperOpen)
    ensures TransfersAccounted(t, remainder) && ReportsLast(t)
    ensures var l := LedgerAfter(t);
            !transmitting && remainder == [] ==> forall i :: 0 <= i < |l.transfers| ==> Settled(l.transfers[i])
  {
    hide LedgerAfter, Concat;
    var l := LedgerAfter(t);
    if l.transfers != [] && remainder == [] {
      assert Concat(Last(l).fragments) + remainder == Concat(Last(l).fragments);
    }
    ReportsFollow(t);
  }

  /** Each message carries as its nonce the number of messages of its session before it. */
  ghost predicate NoncesCount(t: seq<Action>) {
    forall j :: 0 <= j < |t| && t[j].Sent? ==>
      && t[j].nonce == CountSent(t[..j], t[j].session)
      && forall k :: 0 <= k < j && t[k].Sent? && t[k].session == t[j].session ==> t[k].nonce < t[j].nonce
  }

  lemma NoncesFollow(t: seq<Action>)
    requires ActivationAfter(t).ok
    ensures NoncesCount(t)
  {
    hide ActivationAfter, CountSent;
    forall j | 0 <= j < |t| && t[j].Sent?
      ensures t[j].nonce == CountSent(t[..j], t[j].session)
      ensures forall k :: 0 <= k < j && t[k].Sent? && t[k].session == t[j].session ==> t[k].nonce < t[j].nonce
    {
      NonceMeans(t, j);
    }
  }

  /** The accepted texts and those handed out, in order: each but possibly the last was handed out once or
      given up, and where none was given up, the upper layer got them all up to the one that waits. */
  ghost predicate TextsAccounted(t: seq<Action>) {
    var a := IntakeAfter(t).arrivals;
    && Ins(t) == TextsOf(a) && Outs(t) == ReadTexts(a)
    && (forall k :: 0 <= k < |a| - 1 ==> Finished(a[k]))
    && ((forall k :: 0 <= k < |a| ==> !a[k].lost) ==> Outs(t) <= Ins(t) && |Ins(t)| <= |Outs(t)| + 1)
  }

  lemma TextsFollow(t: seq<Action>, payload: seq<Byte>, processing: bool)
    requires IntakeFits(IntakeAfter(t), payload, processing)
    ensures TextsAccounted(t)
  {
    hide IntakeAfter, AccountAfter, TextsOf, ReadTexts;
    IntakeMeans(t);
    var a := IntakeAfter(t).arrivals;
    if forall k :: 0 <= k < |a| ==> !a[k].lost {
      AllRead(a);
    }
  }

  /** The messages that arrive over a run. */
  function Arrivals(events: seq<Event>): seq<seq<Byte>> {
    if events == [] then [] else Arrivals(events[..|events| - 1]) + Arrived(events[|events| - 1])
  }

  /** Any events on a layer in any valid state. Without an activation the active session stays the same
      object with the same keys, and loses its validity only with a close of the upper layer; the trace
      only grows; the messages that arrived are those read, in order, and those that wait; and what the
      upper layer reads and what is taken over from it is what the trace says. */
  method Continue(layer: CryptoLayer, events: seq<Event>) returns (data: seq<seq<Byte>>, writes: seq<seq<Byte>>)
    requires layer.Valid()
    modifies layer, layer.tx, layer.first, layer.second
    ensures layer.Valid() && Continues(old(layer.ActiveSlot()), layer.ActiveSlot())
    ensures layer.Moved(Arrivals(events), data, writes)
  {
    hide ActivationAfter, AccountAfter, Continues, Arrived, CryptoLayer.Shape, CryptoLayer.LoanOk, CryptoLayer.TxOk,
         CryptoLayer.ActivationOk, CryptoLayer.IntakeOk, CryptoLayer.TimersMatch, CryptoLayer.Awake,
         CryptoLayer.Handled, CryptoLayer.DeafSince;
    data, writes := [], [];
    layer.SlotContinues();
    for n := 0 to |events|
      invariant layer.Valid() && Continues(old(layer.ActiveSlot()), layer.ActiveSlot())
      invariant layer.Moved(Arrivals(events[..n]), data, writes)
    {
      ghost var before := layer.ActiveSlot();
      var read, accepted := layer.Handle(events[n]);
      ContinuesOn(old(layer.ActiveSlot()), before, layer.ActiveSlot());
      assert events[..n + 1][..n] == events[..n];
      if read != [] {
        data := data + [read];
      }
      if accepted {
        writes := writes + [events[n].data];
      }
    }
    assert events[..|events|] == events;
  }

  /** The messages read and those that wait are those that arrived, in order, and the texts accepted are
      what the sessions that had to judge them say, in order. */
  ghost predicate MessagesAccounted(t: seq<Action>, inbox: seq<seq<Byte>>, arrivals: seq<seq<Byte>>) {
    var c := AccountAfter(t);
    c.octets + inbox == arrivals && c.ins == c.due && c.judged
  }

  /** Any run of an initiator or responder, over any sequence of events and anything its neighbours,
      its clock and its handshake may do. */
  method Run(initiator: bool, nonceTrigger: nat, config: Config, algorithms: Algorithms, params: Params, lowerReady: bool, events: seq<Event>)
    returns (layer: CryptoLayer, data: seq<seq<Byte>>, writes: seq<seq<Byte>>)
    requires ValidConfig(config) && params.maxNonce <= MAX_U16
    ensures LoansRespected(layer.trace) && ActivationsSound(layer.trace) && NoncesCount(layer.trace)
    ensures TransfersAccounted(layer.trace, layer.tx.remainder) && ReportsLast(layer.trace)
    ensures TransfersOf(LedgerAfter(layer.trace), writes)
    ensures layer.tx.IsIdle() ==> forall i :: 0 <= i < |LedgerAfter(layer.trace).transfers| ==> Settled(LedgerAfter(layer.trace).transfers[i])
    ensures TextsAccounted(layer.trace) && data == Outs(layer.trace)
    ensures MessagesAccounted(layer.trace, layer.inbox, Arrivals(events))
    ensures layer.upperOpen ==> layer.active.valid
    ensures layer.state in {WaitForBeginReply, WaitForAuthReply} <==> layer.timer == ResponseTimer
    ensures layer.state == WaitForRetry <==> layer.timer == RetryTimer
    ensures initiator && layer.isOpen && layer.state == Idle ==>
              layer.sessionTimer || (layer.handshakeRequired && !layer.lowerReady)
  {
    hide LoanAfter, LedgerAfter, ActivationAfter, IntakeAfter, AccountAfter, TransfersOk, IntakeFits, LoansRespected, ActivationsSound,
         NoncesCount, TransfersAccounted, TextsAccounted, Settled, ReportsLast, TransfersOf, Arrivals;
    layer := new CryptoLayer(initiator, nonceTrigger, config, algorithms, params, lowerReady);
    assert AccountAfter(layer.trace) == Account([], [], [], [], [], true) by { NothingYet(); }
    data, writes := Continue(layer, events);
    LoansFollow(layer.trace);
    ActivationsFollow(layer.trace);
    NoncesFollow(layer.trace);
    TransfersFollow(layer.trace, layer.tx.transmitting, layer.tx.remainder, layer.upperOpen);
    assert [] + writes == writes;
    TransfersAreWrites(layer.trace);
    TextsFollow(layer.trace, layer.payload, layer.upperProcessing);
  }

  lemma NothingYet()
    ensures AccountAfter([]) == Account([], [], [], [], [], true)
  {}
}
