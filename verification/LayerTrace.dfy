/** What the crypto layer does to its neighbours, as a trace of actions, and what such a trace says
    about loans of the frame buffer, user transfers and session activations. */
module LayerTraces {
  import opened Bytes
  import opened Messages
  import opened Sessions

  /** A session, as it was, that is to judge a message. */
  datatype Judge = Judge(session: State, config: Config, auth: bool)

  datatype Action =
    | Wrote                          // the frame buffer is about to be written
    | StartedTx(fragment: seq<Byte>) // a frame is lent to the lower layer, with this much user data in it
    | Released                       // the lower layer is done with the frame
    | TookOver(data: seq<Byte>)     // the upper layer handed over data
    | TxReadyUp                      // the upper layer was told that it may hand over more
    | Dropped                        // the transmit state was reset
    | Sent(session: nat, nonce: nat) // a message of this session number was formatted with this nonce
    | Read(octets: seq<Byte>, at: int, judge: Option<Judge>) // a message was taken from the lower layer
    | TextIn(text: seq<Byte>)        // text that a session accepted, for the upper layer
    | HandedOut(read: seq<Byte>)     // the upper layer read it
    | TextLost                       // text that was not read yet was given up
    | Initialised(id: nat)           // the pending session was initialised, as session number id
    | Authenticated(id: nat, message: SessionData)
    | Activated(id: nat)
    | UpperOpened
    | UpperClosed

  // ---- Loans ----

  datatype Loan = Loan(lent: bool, kept: bool)

  function LoanStep(l: Loan, a: Action): Loan {
    match a
    case Wrote => l.(kept := l.kept && !l.lent)
    case StartedTx(_) => Loan(true, l.kept && !l.lent)
    case Released => l.(lent := false)
    case _ => l
  }

  function LoanAfter(t: seq<Action>): Loan {
    if t == [] then Loan(false, true) else LoanStep(LoanAfter(t[..|t| - 1]), t[|t| - 1])
  }

  lemma {:induction false} KeptBefore(t: seq<Action>, j: nat)
    requires LoanAfter(t).kept && j <= |t|
    ensures LoanAfter(t[..j]).kept
    decreases |t|
  {
    if j == |t| {
      assert t[..j] == t;
    } else {
      assert t[..|t| - 1][..j] == t[..j];
      KeptBefore(t[..|t| - 1], j);
    }
  }

  ghost predicate ReleasedBetween(t: seq<Action>, i: nat, j: nat) {
    exists k :: i < k < j <= |t| && t[k].Released?
  }

  lemma {:induction false} LentUntilReleased(t: seq<Action>, i: nat)
    requires i < |t| && t[i].StartedTx?
    ensures LoanAfter(t).lent || ReleasedBetween(t, i, |t|)
    decreases |t|
  {
    var p := t[..|t| - 1];
    if i < |p| {
      LentUntilReleased(p, i);
      if ReleasedBetween(p, i, |p|) {
        var k :| i < k < |p| && p[k].Released?;
        assert t[k].Released?;
      } else if t[|p|].Released? {
        assert ReleasedBetween(t, i, |t|);
      }
    }
  }

  /** A kept loan: between lending a frame and writing the buffer or lending again, the frame came back. */
  lemma LoanMeans(t: seq<Action>, i: nat, j: nat)
    requires LoanAfter(t).kept && i < j < |t| && t[i].StartedTx? && (t[j].Wrote? || t[j].StartedTx?)
    ensures ReleasedBetween(t, i, j)
  {
    KeptBefore(t, j + 1);
    var p := t[..j];
    assert t[..j + 1][..j] == p;
    LentUntilReleased(p, i);
    var k :| i < k < j && p[k].Released?;
    assert t[k].Released?;
  }

  // ---- Transfers ----

  /** One piece of user data: what was handed down of it, whether the last piece is still lent, how often
      the upper layer was told that it is done, whether the upper layer was closed meanwhile, and whether
      the rest was dropped. */
  datatype Transfer = Transfer(data: seq<Byte>, fragments: seq<seq<Byte>>, inFlight: bool, readies: nat, interrupted: bool, cut: bool)

  /** A stray ledger has seen user data that belongs to no transfer or to one already reported done, or a
      report of a transfer that is not: all of it handed down, and the last piece given back. */
  datatype Ledger = Ledger(transfers: seq<Transfer>, stray: bool)

  function Concat(fragments: seq<seq<Byte>>): seq<Byte> {
    if fragments == [] then [] else Concat(fragments[..|fragments| - 1]) + fragments[|fragments| - 1]
  }

  predicate Sized(fragments: seq<seq<Byte>>) {
    forall i :: 0 <= i < |fragments| ==> 1 <= |fragments[i]| <= MAX_FRAGMENT
  }

  predicate Outstanding(t: Transfer) { t.data != [] && t.readies == 0 }

  /** Everything went down and came back, nothing was reported yet. */
  predicate Done(t: Transfer) {
    Outstanding(t) && !t.cut && !t.inFlight && Concat(t.fragments) == t.data
  }

  function Last(l: Ledger): Transfer
    requires l.transfers != []
  {
    l.transfers[|l.transfers| - 1]
  }

  function WithLast(l: Ledger, t: Transfer): (r: Ledger)
    requires l.transfers != []
    ensures |r.transfers| == |l.transfers| && Last(r) == t && r.stray == l.stray
    ensures forall i :: 0 <= i < |l.transfers| - 1 ==> r.transfers[i] == l.transfers[i]
  {
    l.(transfers := l.transfers[|l.transfers| - 1 := t])
  }

  function LedgerStep(l: Ledger, a: Action): Ledger {
    match a
    case TookOver(data) => l.(transfers := l.transfers + [Transfer(data, [], false, 0, false, false)])
    case StartedTx(fragment) =>
      if fragment == [] then l
      else if l.transfers == [] || Last(l).cut || Last(l).readies > 0 then l.(stray := true)
      else WithLast(l, Last(l).(fragments := Last(l).fragments + [fragment], inFlight := true))
    case Released =>
      if l.transfers == [] then l else WithLast(l, Last(l).(inFlight := false))
    case TxReadyUp =>
      if l.transfers == [] || !Done(Last(l)) then l.(stray := true)
      else WithLast(l, Last(l).(readies := Last(l).readies + 1))
    case UpperClosed =>
      if l.transfers == [] then l else WithLast(l, Last(l).(interrupted := Last(l).interrupted || Outstanding(Last(l))))
    case Dropped =>
      if l.transfers == [] then l else WithLast(l, Last(l).(cut := Last(l).cut || Outstanding(Last(l))))
    case _ => l
  }

  function LedgerAfter(t: seq<Action>): Ledger {
    if t == [] then Ledger([], false) else LedgerStep(LedgerAfter(t[..|t| - 1]), t[|t| - 1])
  }

  /** All of it was handed down, in order and in pieces of 1 to 1024 octets, and the upper layer was
      told so exactly once, unless it was closed or the rest was dropped. Empty data needs neither. */
  predicate Settled(t: Transfer) {
    && Sized(t.fragments) && Concat(t.fragments) <= t.data && t.readies <= 1
    && (t.cut || (Concat(t.fragments) == t.data && (t.interrupted || t.readies == (if t.data == [] then 0 else 1))))
  }

  /** The last transfer, given the transmit state of the layer: what is left to send, whether a
      fragment is on its way, and whether the upper layer is yet to hear of the end. */
  predicate Underway(t: Transfer, transmitting: bool, remainder: seq<Byte>, owed: bool, upperOpen: bool) {
    && Sized(t.fragments) && Concat(t.fragments) + remainder <= t.data
    && (owed ==> !transmitting && remainder == [])
    && (t.inFlight ==> transmitting || t.cut)
    && (t.cut ==> !transmitting && remainder == [] && !owed && t.readies == 0)
    && (!t.cut ==>
          && Concat(t.fragments) + remainder == t.data
          && (if transmitting || remainder != [] || owed then t.data != [] && t.readies == 0 && (t.interrupted || upperOpen)
              else t.readies == (if t.data == [] then 0 else 1) || (t.interrupted && t.readies == 0)))
  }

  predicate TransfersOk(l: Ledger, transmitting: bool, remainder: seq<Byte>, owed: bool, upperOpen: bool) {
    && !l.stray
    && (forall i :: 0 <= i < |l.transfers| - 1 ==> Settled(l.transfers[i]))
    && (if l.transfers == [] then !transmitting && remainder == [] && !owed
        else Underway(Last(l), transmitting, remainder, owed, upperOpen))
  }

  lemma ConcatAppend(fragments: seq<seq<Byte>>, f: seq<Byte>)
    ensures Concat(fragments + [f]) == Concat(fragments) + f
  {
    assert (fragments + [f])[..|fragments|] == fragments;
  }

  lemma TakeOverStep(l: Ledger, data: seq<Byte>)
    requires TransfersOk(l, false, [], false, true)
    ensures TransfersOk(LedgerStep(l, TookOver(data)), false, data, false, true)
  {
    hide Concat, Sized;
    var r := LedgerStep(l, TookOver(data));
    NothingConcat();
    assert [] + data == data;
    if l.transfers != [] {
      var t := Last(l);
      assert Concat(t.fragments) + [] == Concat(t.fragments);
      assert Settled(t);
      assert forall i :: 0 <= i < |l.transfers| ==> r.transfers[i] == l.transfers[i];
    }
  }

  lemma NothingConcat()
    ensures Concat([]) == [] && Sized([])
  {}

  lemma FragmentStep(l: Ledger, fragment: seq<Byte>, rest: seq<Byte>, upperOpen: bool)
    requires 1 <= |fragment| <= MAX_FRAGMENT && TransfersOk(l, false, fragment + rest, false, upperOpen)
    ensures TransfersOk(LedgerStep(l, StartedTx(fragment)), true, rest, false, upperOpen)
  {
    hide Concat, Settled;
    var t := Last(l);
    ConcatAppend(t.fragments, fragment);
    assert Concat(t.fragments) + (fragment + rest) == Concat(t.fragments) + fragment + rest;
  }

  lemma ReleasedStep(l: Ledger, transmitting: bool, remainder: seq<Byte>, owed: bool, upperOpen: bool)
    requires TransfersOk(l, transmitting, remainder, owed, upperOpen)
    ensures TransfersOk(LedgerStep(l, Released), transmitting, remainder, owed, upperOpen)
    ensures transmitting && !owed ==> TransfersOk(LedgerStep(l, Released), false, remainder, remainder == [], upperOpen)
  {
    hide Concat, Settled, Sized;
  }

  lemma ReadyStep(l: Ledger, upperOpen: bool)
    requires TransfersOk(l, false, [], true, upperOpen)
    ensures TransfersOk(if upperOpen then LedgerStep(l, TxReadyUp) else l, false, [], false, upperOpen)
  {
    hide Concat, Settled, Sized;
    assert Concat(Last(l).fragments) + [] == Concat(Last(l).fragments);
  }

  lemma UpperClosedStep(l: Ledger, transmitting: bool, remainder: seq<Byte>, owed: bool)
    requires TransfersOk(l, transmitting, remainder, owed, true)
    ensures TransfersOk(LedgerStep(l, UpperClosed), transmitting, remainder, owed, false)
  {
    hide Concat, Settled, Sized;
  }

  lemma DroppedStep(l: Ledger, transmitting: bool, remainder: seq<Byte>, owed: bool)
    requires TransfersOk(l, transmitting, remainder, owed, false)
    ensures TransfersOk(LedgerStep(l, Dropped), false, [], false, false)
  {
    hide Concat, Settled, Sized;
    if l.transfers != [] {
      var t := Last(l);
      assert Concat(t.fragments) + [] == Concat(t.fragments);
      if remainder == [] { assert Concat(t.fragments) + remainder == Concat(t.fragments); }
    }
  }

  lemma UpperOpenedStep(l: Ledger, transmitting: bool, remainder: seq<Byte>, owed: bool, upperOpen: bool)
    requires TransfersOk(l, transmitting, remainder, owed, upperOpen)
    ensures TransfersOk(l, transmitting, remainder, owed, true)
  {
    hide Concat, Settled, Sized;
  }

  // ---- Reports come after the last fragment ----

  ghost predicate TakenOverBetween(t: seq<Action>, i: nat, j: nat) {
    exists k :: i < k < j <= |t| && t[k].TookOver?
  }

  lemma {:induction false} NeverStray(t: seq<Action>, j: nat)
    requires !LedgerAfter(t).stray && j <= |t|
    ensures !LedgerAfter(t[..j]).stray
    decreases |t|
  {
    hide Concat;
    if j == |t| {
      assert t[..j] == t;
    } else {
      assert t[..|t| - 1][..j] == t[..j];
      NeverStray(t[..|t| - 1], j);
    }
  }

  lemma {:induction false} ReportedUntilNext(t: seq<Action>, j: nat)
    requires !LedgerAfter(t).stray && j < |t| && t[j].TxReadyUp?
    ensures TakenOverBetween(t, j, |t|) || (LedgerAfter(t).transfers != [] && Last(LedgerAfter(t)).readies > 0)
    decreases |t|
  {
    hide Concat;
    var p := t[..|t| - 1];
    if j < |p| {
      NeverStray(t, |p|);
      ReportedUntilNext(p, j);
      if TakenOverBetween(p, j, |p|) {
        var k :| j < k < |p| && p[k].TookOver?;
        assert t[k].TookOver?;
      } else if t[|p|].TookOver? {
        assert TakenOverBetween(t, j, |t|);
      }
    }
  }

  lemma LedgerUnfolds(t: seq<Action>, k: nat)
    requires k < |t|
    ensures LedgerAfter(t[..k + 1]) == LedgerStep(LedgerAfter(t[..k]), t[k])
  {
    hide LedgerStep;
    assert t[..k + 1][..k] == t[..k];
  }

  lemma NothingAfterReport(t: seq<Action>, j: nat, k: nat)
    requires !LedgerAfter(t).stray && j < k < |t| && t[j].TxReadyUp? && t[k].StartedTx? && t[k].fragment != []
    ensures TakenOverBetween(t, j, k)
  {
    hide LedgerAfter, TakenOverBetween, Concat;
    NeverStray(t, k + 1);
    NeverStray(t, k);
    LedgerUnfolds(t, k);
    ReportedUntilNext(t[..k], j);
    TakenOverEarlier(t, j, k);
  }

  /** When the upper layer is told that it may hand over more, all it handed over before went down and
      came back; and no further user data goes down before it hands over more. */
  lemma ReportMeans(t: seq<Action>, j: nat)
    requires !LedgerAfter(t).stray && j < |t| && t[j].TxReadyUp?
    ensures LedgerAfter(t[..j]).transfers != [] && Done(Last(LedgerAfter(t[..j])))
    ensures forall k :: j < k < |t| && t[k].StartedTx? && t[k].fragment != [] ==> TakenOverBetween(t, j, k)
  {
    hide LedgerAfter, TakenOverBetween, Concat;
    NeverStray(t, j + 1);
    LedgerUnfolds(t, j);
    forall k | j < k < |t| && t[k].StartedTx? && t[k].fragment != [] ensures TakenOverBetween(t, j, k) {
      NothingAfterReport(t, j, k);
    }
  }

  lemma TakenOverEarlier(t: seq<Action>, i: nat, j: nat)
    requires j <= |t| && TakenOverBetween(t[..j], i, j)
    ensures TakenOverBetween(t, i, j)
  {
    var k :| i < k < j && t[..j][k].TookOver?;
    assert t[k].TookOver?;
  }

  // ---- Received text ----

  /** One accepted text: how often it was handed to the upper layer, and whether it was given up. */
  datatype Arrival = Arrival(text: seq<Byte>, times: nat, lost: bool)

  /** A stray intake has seen a text overwritten before it was read, or one handed out that is not the
      one waiting. */
  datatype Intake = Intake(arrivals: seq<Arrival>, stray: bool)

  predicate Waiting(a: Arrival) { a.times == 0 && !a.lost }

  predicate Waits(i: Intake) { i.arrivals != [] && Waiting(i.arrivals[|i.arrivals| - 1]) }

  /** Handed out exactly once, or given up. */
  predicate Finished(a: Arrival) { a.times == (if a.lost then 0 else 1) }

  function IntakeStep(i: Intake, a: Action): Intake {
    var n := |i.arrivals|;
    match a
    case TextIn(text) => Intake(i.arrivals + [Arrival(text, 0, false)], i.stray || Waits(i))
    case HandedOut(read) =>
      if Waits(i) && i.arrivals[n - 1].text == read then i.(arrivals := i.arrivals[..n - 1] + [Arrival(read, 1, false)])
      else i.(stray := true)
    case TextLost => if Waits(i) then i.(arrivals := i.arrivals[..n - 1] + [i.arrivals[n - 1].(lost := true)]) else i
    case _ => i
  }

  function IntakeAfter(t: seq<Action>): Intake {
    if t == [] then Intake([], false) else IntakeStep(IntakeAfter(t[..|t| - 1]), t[|t| - 1])
  }

  /** The intake agrees with what the layer holds for the upper layer. */
  predicate IntakeFits(i: Intake, payload: seq<Byte>, processing: bool) {
    var n := |i.arrivals|;
    && !i.stray && (forall k :: 0 <= k < n - 1 ==> Finished(i.arrivals[k]))
    && (if payload == [] then !processing && (n > 0 ==> Finished(i.arrivals[n - 1]))
        else n > 0 && i.arrivals[n - 1] == Arrival(payload, if processing then 1 else 0, false))
  }

  lemma TextInStep(i: Intake, text: seq<Byte>)
    requires IntakeFits(i, [], false) && text != []
    ensures IntakeFits(IntakeStep(i, TextIn(text)), text, false)
    ensures IntakeFits(IntakeStep(IntakeStep(i, TextIn(text)), TextLost), [], false)
  {}

  lemma HandedOutStep(i: Intake, payload: seq<Byte>)
    requires IntakeFits(i, payload, false) && payload != []
    ensures IntakeFits(IntakeStep(i, HandedOut(payload)), payload, true)
  {}

  lemma TextLostStep(i: Intake, payload: seq<Byte>, processing: bool)
    requires IntakeFits(i, payload, processing)
    ensures IntakeFits(IntakeStep(i, TextLost), [], false)
  {}

  // ---- What came in and went out ----

  /** What becomes of a session message: nothing without a session to judge it. */
  function Verdict(m: SessionData, at: int, judge: Option<Judge>): Validated {
    if judge.None? then Rejected(NoValidSession)
    else
      var j := judge.value;
      if j.auth then Validate(j.session, j.config, m, at, true) else DataResult(Validate(j.session, j.config, m, at, false))
  }

  /** The text of an accepted message, if there is any. */
  function TextOf(r: Validated): seq<seq<Byte>> {
    if r.Accepted? && r.payload != [] then [r.payload] else []
  }

  /** The text that reading these octets has to bring. */
  function TextDue(octets: seq<Byte>, at: int, judge: Option<Judge>): seq<seq<Byte>> {
    var m := ReadSessionData(octets);
    if m.None? then [] else TextOf(Verdict(m.value, at, judge))
  }

  /** Session messages are judged by their kind: nonce 0 authenticates, all others are data and are
      always judged. */
  predicate JudgedRightly(octets: seq<Byte>, judge: Option<Judge>) {
    match ReadSessionData(octets)
    case None => judge.None?
    case Some(m) => if m.metadata.nonce == 0 then judge.Some? ==> judge.value.auth else judge.Some? && !judge.value.auth
  }

  /** Over a trace, in order: the messages read, the texts they had to bring, the texts accepted, those
      handed to the upper layer, and the data taken over from it. */
  datatype Account = Account(
    octets: seq<seq<Byte>>, due: seq<seq<Byte>>, ins: seq<seq<Byte>>, outs: seq<seq<Byte>>, writes: seq<seq<Byte>>, judged: bool)

  function AccountStep(c: Account, a: Action): Account {
    match a
    case Read(octets, at, judge) =>
      c.(octets := c.octets + [octets], due := c.due + TextDue(octets, at, judge), judged := c.judged && JudgedRightly(octets, judge))
    case TextIn(text) => c.(ins := c.ins + [text])
    case HandedOut(read) => c.(outs := c.outs + [read])
    case TookOver(data) => c.(writes := c.writes + [data])
    case _ => c
  }

  function AccountAfter(t: seq<Action>): Account {
    if t == [] then Account([], [], [], [], [], true) else AccountStep(AccountAfter(t[..|t| - 1]), t[|t| - 1])
  }

  function Ins(t: seq<Action>): seq<seq<Byte>> { AccountAfter(t).ins }

  function Outs(t: seq<Action>): seq<seq<Byte>> { AccountAfter(t).outs }

  /** The transfers are of this data, in order. */
  predicate TransfersOf(l: Ledger, writes: seq<seq<Byte>>) {
    |l.transfers| == |writes| && forall i :: 0 <= i < |writes| ==> l.transfers[i].data == writes[i]
  }

  lemma TransfersOfStep(l: Ledger, writes: seq<seq<Byte>>, a: Action)
    requires TransfersOf(l, writes)
    ensures TransfersOf(LedgerStep(l, a), if a.TookOver? then writes + [a.data] else writes)
  {
    hide Concat, Done, Outstanding;
    if l.transfers != [] && !a.TookOver? {
      var r := LedgerStep(l, a);
      assert Last(r).data == Last(l).data;
      assert forall i :: 0 <= i < |writes| - 1 ==> r.transfers[i] == l.transfers[i];
    }
  }

  lemma {:induction false} TransfersAreWrites(t: seq<Action>)
    ensures TransfersOf(LedgerAfter(t), AccountAfter(t).writes)
    decreases |t|
  {
    hide LedgerStep, TransfersOf, TextDue, JudgedRightly;
    if t == [] {
      NoTransfers();
    } else {
      var p := t[..|t| - 1];
      TransfersAreWrites(p);
      TransfersOfStep(LedgerAfter(p), AccountAfter(p).writes, t[|t| - 1]);
    }
  }

  lemma NoTransfers()
    ensures TransfersOf(Ledger([], false), [])
  {}

  function TextsOf(arrivals: seq<Arrival>): seq<seq<Byte>> {
    if arrivals == [] then [] else TextsOf(arrivals[..|arrivals| - 1]) + [arrivals[|arrivals| - 1].text]
  }

  function ReadTexts(arrivals: seq<Arrival>): seq<seq<Byte>> {
    if arrivals == [] then []
    else ReadTexts(arrivals[..|arrivals| - 1]) + if arrivals[|arrivals| - 1].times > 0 then [arrivals[|arrivals| - 1].text] else []
  }

  lemma TextsSnoc(arrivals: seq<Arrival>, a: Arrival)
    ensures TextsOf(arrivals + [a]) == TextsOf(arrivals) + [a.text]
    ensures ReadTexts(arrivals + [a]) == ReadTexts(arrivals) + if a.times > 0 then [a.text] else []
  {
    assert (arrivals + [a])[..|arrivals|] == arrivals;
  }

  /** What was accepted and what was handed out are the texts of the arrivals, and of those read. */
  lemma {:induction false} IntakeMeans(t: seq<Action>)
    requires !IntakeAfter(t).stray
    ensures Ins(t) == TextsOf(IntakeAfter(t).arrivals) && Outs(t) == ReadTexts(IntakeAfter(t).arrivals)
    decreases |t|
  {
    hide TextsOf, ReadTexts, TextDue, JudgedRightly;
    if t == [] {
      NoTexts();
    } else {
      var p, a := t[..|t| - 1], t[|t| - 1];
      var i := IntakeAfter(p);
      IntakeMeans(p);
      if a.TextIn? {
        TextsSnoc(i.arrivals, Arrival(a.text, 0, false));
      } else if (a.HandedOut? || a.TextLost?) && Waits(i) {
        var front, last := i.arrivals[..|i.arrivals| - 1], i.arrivals[|i.arrivals| - 1];
        assert i.arrivals == front + [last];
        TextsSnoc(front, last);
        TextsSnoc(front, Arrival(last.text, 1, false));
        TextsSnoc(front, last.(lost := true));
      }
    }
  }

  lemma NoTexts()
    ensures TextsOf([]) == [] && ReadTexts([]) == []
  {}

  /** Where nothing was given up, the upper layer got every accepted text in order, but for at most the
      one that is waiting. */
  lemma {:induction false} AllRead(arrivals: seq<Arrival>)
    requires forall k :: 0 <= k < |arrivals| ==> !arrivals[k].lost
    requires forall k :: 0 <= k < |arrivals| - 1 ==> Finished(arrivals[k])
    ensures ReadTexts(arrivals) <= TextsOf(arrivals) && |TextsOf(arrivals)| <= |ReadTexts(arrivals)| + 1
    ensures arrivals == [] || Finished(arrivals[|arrivals| - 1]) ==> ReadTexts(arrivals) == TextsOf(arrivals)
    decreases |arrivals|
  {
    if arrivals != [] {
      AllRead(arrivals[..|arrivals| - 1]);
    }
  }

  // ---- Activations ----

  /** How many sessions were initialised, which of them is pending, which authenticated last, which is
      active, how many became active, and how many messages each of them sent. */
  datatype Activation = Activation(
    issued: nat, pending: Option<nat>, authenticated: Option<nat>, active: Option<nat>, activations: nat, sent: map<nat, nat>, ok: bool)

  function SentBy(s: Activation, id: nat): nat { if id in s.sent then s.sent[id] else 0 }

  function ActivationStep(s: Activation, a: Action): Activation {
    match a
    case Initialised(id) => s.(issued := s.issued + 1, pending := Some(id), ok := s.ok && id == s.issued)
    case Authenticated(id, m) => s.(authenticated := Some(id), ok := s.ok && s.pending == Some(id) && m.metadata.nonce == 0)
    case Activated(id) =>
      s.(pending := None, active := Some(id), activations := s.activations + 1, ok := s.ok && s.pending == s.authenticated == Some(id))
    case Sent(id, nonce) =>
      s.(sent := s.sent[id := nonce + 1],
         ok := s.ok && id < s.issued && Some(id) in {s.pending, s.active} && nonce == SentBy(s, id))
    case _ => s
  }

  function ActivationAfter(t: seq<Action>): Activation {
    if t == [] then Activation(0, None, None, None, 0, map[], true) else ActivationStep(ActivationAfter(t[..|t| - 1]), t[|t| - 1])
  }

  /** Sessions are numbered in order of initialisation, and a valid session has counted what it sent. */
  predicate Numbered(a: Activation, pendingValid: bool, pendingSent: nat, activeValid: bool, activeSent: nat) {
    && a.ok && (forall id :: id in a.sent ==> id < a.issued)
    && (a.pending.Some? ==> a.pending.value < a.issued && a.pending != a.active)
    && (a.active.Some? ==> a.active.value < a.issued)
    && (pendingValid ==> a.pending.Some? && SentBy(a, a.pending.value) == pendingSent)
    && (activeValid ==> a.active.Some? && SentBy(a, a.active.value) == activeSent)
  }

  lemma PendingSentStep(a: Activation, sent: nat, activeValid: bool, activeSent: nat)
    requires Numbered(a, true, sent, activeValid, activeSent)
    ensures a.pending.Some? && Numbered(ActivationStep(a, Sent(a.pending.value, sent)), true, sent + 1, activeValid, activeSent)
  {}

  lemma ActiveSentStep(a: Activation, pendingValid: bool, pendingSent: nat, sent: nat)
    requires Numbered(a, pendingValid, pendingSent, true, sent)
    ensures a.active.Some? && Numbered(ActivationStep(a, Sent(a.active.value, sent)), pendingValid, pendingSent, true, sent + 1)
  {}

  lemma InitialisedStep(a: Activation, pendingValid: bool, pendingSent: nat, activeValid: bool, activeSent: nat)
    requires Numbered(a, pendingValid, pendingSent, activeValid, activeSent)
    ensures Numbered(ActivationStep(a, Initialised(a.issued)), true, 0, activeValid, activeSent)
  {}

  lemma ActivatedStep(a: Activation, sent: nat, activeValid: bool, activeSent: nat, m: SessionData, any: nat)
    requires Numbered(a, true, sent, activeValid, activeSent) && m.metadata.nonce == 0
    ensures a.pending.Some?
    ensures var b := ActivationStep(a, Authenticated(a.pending.value, m));
            Numbered(ActivationStep(b, Activated(a.pending.value)), false, any, true, sent)
  {}

  lemma StillNumbered(a: Activation, pendingValid: bool, pendingSent: nat, activeValid: bool, activeSent: nat,
                      pendingValid': bool, pendingSent': nat, activeValid': bool, activeSent': nat)
    requires Numbered(a, pendingValid, pendingSent, activeValid, activeSent)
    requires (pendingValid' ==> pendingValid && pendingSent' == pendingSent) && (activeValid' ==> activeValid && activeSent' == activeSent)
    ensures Numbered(a, pendingValid', pendingSent', activeValid', activeSent')
  {}

  // ---- Nonces ----

  /** How many messages of a session number are in a trace. */
  function CountSent(t: seq<Action>, id: nat): nat {
    if t == [] then 0
    else CountSent(t[..|t| - 1], id) + if t[|t| - 1].Sent? && t[|t| - 1].session == id then 1 else 0
  }

  lemma {:induction false} SentIsCounted(t: seq<Action>, id: nat)
    requires ActivationAfter(t).ok
    ensures SentBy(ActivationAfter(t), id) == CountSent(t, id)
    ensures CountSent(t, id) > 0 ==> id < ActivationAfter(t).issued
    decreases |t|
  {
    if t != [] {
      SentIsCounted(t[..|t| - 1], id);
    }
  }

  lemma {:induction false} CountGrows(t: seq<Action>, i: nat, id: nat)
    requires i <= |t|
    ensures CountSent(t[..i], id) <= CountSent(t, id)
    decreases |t|
  {
    if i == |t| {
      assert t[..i] == t;
    } else {
      assert t[..|t| - 1][..i] == t[..i];
      CountGrows(t[..|t| - 1], i, id);
    }
  }

  /** Each message carries the number of messages of its session before it, so no pair of session and
      nonce is sent twice. */
  lemma NonceMeans(t: seq<Action>, j: nat)
    requires ActivationAfter(t).ok && j < |t| && t[j].Sent?
    ensures t[j].nonce == CountSent(t[..j], t[j].session)
    ensures forall k :: 0 <= k < j && t[k].Sent? && t[k].session == t[j].session ==> t[k].nonce < t[j].nonce
  {
    hide CountSent;
    NonceIsCount(t, j);
    forall k | 0 <= k < j && t[k].Sent? && t[k].session == t[j].session ensures t[k].nonce < t[j].nonce {
      NonceIsCount(t, k);
      CountsOne(t, k);
      assert t[..j][..k + 1] == t[..k + 1];
      CountGrows(t[..j], k + 1, t[j].session);
    }
  }

  lemma CountsOne(t: seq<Action>, k: nat)
    requires k < |t| && t[k].Sent?
    ensures CountSent(t[..k + 1], t[k].session) == CountSent(t[..k], t[k].session) + 1
  {
    assert t[..k + 1][..k] == t[..k];
  }

  lemma NonceIsCount(t: seq<Action>, j: nat)
    requires ActivationAfter(t).ok && j < |t| && t[j].Sent?
    ensures t[j].nonce == CountSent(t[..j], t[j].session)
  {
    hide CountSent;
    OkBefore(t, j + 1);
    assert t[..j + 1][..j] == t[..j];
    OkBefore(t, j);
    SentIsCounted(t[..j], t[j].session);
  }

  /** Session id was initialised, and then a message with nonce 0 authenticated under it. */
  ghost predicate Proven(t: seq<Action>, id: nat) {
    exists i, k :: 0 <= i < k < |t| && t[i] == Initialised(id) && t[k].Authenticated? && t[k].id == id && t[k].message.metadata.nonce == 0
  }

  ghost predicate Occurs(t: seq<Action>, a: Action) { exists i :: 0 <= i < |t| && t[i] == a }

  lemma OccursAppend(t: seq<Action>, a: Action, b: Action)
    requires t != [] && t[|t| - 1] == b
    ensures Occurs(t, a) <==> Occurs(t[..|t| - 1], a) || a == b
  {
    var p := t[..|t| - 1];
    if Occurs(p, a) {
      var i :| 0 <= i < |p| && p[i] == a;
      assert t[i] == a;
    }
  }

  lemma ProvenStays(t: seq<Action>, id: nat)
    requires t != [] && Proven(t[..|t| - 1], id)
    ensures Proven(t, id)
  {
    var p := t[..|t| - 1];
    var i, k :| 0 <= i < k < |p| && p[i] == Initialised(id) && p[k].Authenticated? && p[k].id == id && p[k].message.metadata.nonce == 0;
    assert t[i] == Initialised(id) && t[k] == p[k];
  }

  lemma ProvenNow(t: seq<Action>, id: nat)
    requires t != [] && Occurs(t[..|t| - 1], Initialised(id))
    requires t[|t| - 1].Authenticated? && t[|t| - 1].id == id && t[|t| - 1].message.metadata.nonce == 0
    ensures Proven(t, id)
  {
    var i :| 0 <= i < |t| - 1 && t[..|t| - 1][i] == Initialised(id);
    assert t[i] == Initialised(id);
  }

  lemma {:induction false} ActivationInvariant(t: seq<Action>, id: nat)
    requires ActivationAfter(t).ok
    ensures var s := ActivationAfter(t);
            && (Occurs(t, Initialised(id)) || Occurs(t, Activated(id)) ==> id < s.issued)
            && (s.pending == Some(id) ==> Occurs(t, Initialised(id)) && !Occurs(t, Activated(id)))
            && (s.authenticated == Some(id) ==> Proven(t, id))
    decreases |t|
  {
    hide Occurs, Proven;
    if t == [] {
      NothingOccurs(Initialised(id));
      NothingOccurs(Activated(id));
    } else {
      var p, b := t[..|t| - 1], t[|t| - 1];
      ActivationInvariant(p, id);
      OccursAppend(t, Initialised(id), b);
      OccursAppend(t, Activated(id), b);
      if ActivationAfter(p).authenticated == Some(id) { ProvenStays(t, id); }
      if b.Authenticated? && b.id == id { ProvenNow(t, id); }
    }
  }

  lemma NothingOccurs(a: Action)
    ensures !Occurs([], a)
  {}

  lemma {:induction false} OkBefore(t: seq<Action>, j: nat)
    requires ActivationAfter(t).ok && j <= |t|
    ensures ActivationAfter(t[..j]).ok
    decreases |t|
  {
    if j == |t| {
      assert t[..j] == t;
    } else {
      assert t[..|t| - 1][..j] == t[..j];
      OkBefore(t[..|t| - 1], j);
    }
  }

  /** A session that became active was initialised, authenticated a message with nonce 0 after that,
      and became active only this once. */
  lemma ActivationMeans(t: seq<Action>, j: nat)
    requires ActivationAfter(t).ok && j < |t| && t[j].Activated?
    ensures Proven(t[..j], t[j].id)
    ensures forall k :: 0 <= k < |t| && k != j ==> t[k] != t[j]
  {
    ActivationBefore(t, j);
    forall k | 0 <= k < |t| && k != j ensures t[k] != t[j] {
      if t[k].Activated? {
        if k < j { ActivationsDiffer(t, k, j); } else { ActivationsDiffer(t, j, k); }
      }
    }
  }

  lemma ActivationsDiffer(t: seq<Action>, i: nat, j: nat)
    requires ActivationAfter(t).ok && i < j < |t| && t[i].Activated? && t[j].Activated?
    ensures t[i] != t[j]
  {
    ActivationBefore(t, j);
    assert t[..j][i] == t[i];
  }

  lemma ActivationBefore(t: seq<Action>, j: nat)
    requires ActivationAfter(t).ok && j < |t| && t[j].Activated?
    ensures Proven(t[..j], t[j].id) && !Occurs(t[..j], t[j])
  {
    hide Proven, Occurs;
    OkBefore(t, j + 1);
    assert t[..j + 1][..j] == t[..j];
    OkBefore(t, j);
    ActivationInvariant(t[..j], t[j].id);
  }
}
