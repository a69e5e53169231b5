/** The bounded store of single-use keys: an ordered map that behaves as a bounded deque. */
module QixKeyStoring {
  import opened Bytes

  /** A key record; a key that is not 32 octets long is stored as absent. */
  datatype KeyRecord = KeyRecord(id: nat, key: Option<seq<Byte>>)

  function MakeRecord(id: nat, data: seq<Byte>): KeyRecord {
    KeyRecord(id, if |data| == 32 then Some(data) else None)
  }

  // ---- The deque ----

  predicate Increasing(d: seq<KeyRecord>) {
    forall i, j :: 0 <= i < j < |d| ==> d[i].id < d[j].id
  }

  /** Append at the back. An id below the newest clears everything first, an equal id replaces the
      newest, and a record too many pushes out the oldest. */
  function Push(d: seq<KeyRecord>, limit: nat, r: KeyRecord): seq<KeyRecord> {
    var all := PutBack(if d != [] && r.id < d[|d| - 1].id then [] else d, r);
    if |all| > limit then all[1..] else all
  }

  function PutBack(d: seq<KeyRecord>, r: KeyRecord): (e: seq<KeyRecord>)
    ensures e != []
  {
    if d != [] && r.id == d[|d| - 1].id then d[..|d| - 1] + [r] else d + [r]
  }

  function IndexOf(d: seq<KeyRecord>, id: nat): (i: nat)
    ensures i <= |d|
    ensures i < |d| ==> d[i].id == id
    ensures forall j :: 0 <= j < i ==> d[j].id != id
  {
    if d == [] || d[0].id == id then 0 else 1 + IndexOf(d[1..], id)
  }

  function Remove(d: seq<KeyRecord>, i: nat): seq<KeyRecord>
    requires i < |d|
  {
    d[..i] + d[i + 1..]
  }

  lemma PushKeepsOrder(d: seq<KeyRecord>, limit: nat, r: KeyRecord)
    requires Increasing(d) && |d| <= limit
    ensures Increasing(Push(d, limit, r)) && |Push(d, limit, r)| <= limit
  {}

  // ---- The map ----

  ghost predicate Has(d: seq<KeyRecord>, id: nat) {
    exists i :: 0 <= i < |d| && d[i].id == id
  }

  /** m holds exactly the records of d, under their ids. */
  ghost predicate Holds(m: map<nat, KeyRecord>, d: seq<KeyRecord>) {
    && |m| == |d|
    && (forall id :: id in m <==> Has(d, id))
    && (forall i :: 0 <= i < |d| ==> d[i].id in m && m[d[i].id] == d[i])
  }

  lemma HasAppend(d: seq<KeyRecord>, r: KeyRecord, id: nat)
    ensures Has(d + [r], id) <==> Has(d, id) || id == r.id
  {
    var e := d + [r];
    assert e[|d|] == r;
    if Has(d, id) {
      var i :| 0 <= i < |d| && d[i].id == id;
      assert e[i].id == id;
    }
  }

  lemma HasRemove(d: seq<KeyRecord>, i: nat, id: nat)
    requires Increasing(d) && i < |d|
    ensures Has(Remove(d, i), id) <==> Has(d, id) && id != d[i].id
  {
    var e := Remove(d, i);
    if Has(e, id) {
      var j :| 0 <= j < |e| && e[j].id == id;
      assert d[if j < i then j else j + 1].id == id;
    }
    if Has(d, id) && id != d[i].id {
      var j :| 0 <= j < |d| && d[j].id == id;
      assert e[if j < i then j else j - 1].id == id;
    }
  }

  lemma HoldsAppend(m: map<nat, KeyRecord>, d: seq<KeyRecord>, r: KeyRecord)
    requires Holds(m, d) && !Has(d, r.id)
    ensures Holds(m[r.id := r], d + [r])
  {
    hide Has;
    forall id ensures id in m[r.id := r] <==> Has(d + [r], id) {
      HasAppend(d, r, id);
    }
  }

  lemma HoldsRemove(m: map<nat, KeyRecord>, d: seq<KeyRecord>, i: nat)
    requires Holds(m, d) && Increasing(d) && i < |d|
    ensures Holds(m - {d[i].id}, Remove(d, i)) && Increasing(Remove(d, i))
  {
    hide Has;
    var m', d' := m - {d[i].id}, Remove(d, i);
    assert m'.Keys == m.Keys - {d[i].id};
    forall id ensures id in m' <==> Has(d', id) {
      HasRemove(d, i, id);
    }
    assert forall j :: 0 <= j < |d'| ==> d'[j] == d[if j < i then j else j + 1];
  }

  lemma HoldsNothing()
    ensures Holds(map[], [])
  {}

  lemma OrderOfNothing()
    ensures Increasing([])
  {}

  lemma SameSize(m: map<nat, KeyRecord>, d: seq<KeyRecord>)
    requires Holds(m, d)
    ensures |m| == |d|
  {}

  lemma HoldsAt(m: map<nat, KeyRecord>, d: seq<KeyRecord>, i: nat)
    requires Holds(m, d) && i < |d|
    ensures d[i].id in m && m[d[i].id] == d[i]
  {}

  lemma HoldsId(m: map<nat, KeyRecord>, d: seq<KeyRecord>, id: nat)
    requires Holds(m, d)
    ensures id in m <==> IndexOf(d, id) < |d|
  {}

  lemma HoldsPut(m: map<nat, KeyRecord>, d: seq<KeyRecord>, r: KeyRecord)
    requires Holds(m, d) && Increasing(d) && (d != [] ==> d[|d| - 1].id <= r.id)
    ensures Holds(m[r.id := r], PutBack(d, r)) && Increasing(PutBack(d, r))
  {
    hide Holds;
    var n := |d|;
    if n > 0 && r.id == d[n - 1].id {
      HoldsRemove(m, d, n - 1);
      assert Remove(d, n - 1) == d[..n - 1];
      HoldsAppend(m - {r.id}, d[..n - 1], r);
      assert (m - {r.id})[r.id := r] == m[r.id := r];
    } else {
      HoldsAppend(m, d, r);
    }
  }

  lemma EndsAreExtreme(d: seq<KeyRecord>, id: nat)
    requires Increasing(d) && Has(d, id)
    ensures d[0].id <= id <= d[|d| - 1].id
  {}

  lemma Extremes(m: map<nat, KeyRecord>, d: seq<KeyRecord>)
    requires Holds(m, d) && Increasing(d) && |m| > 0
    ensures d != [] && d[0].id in m && d[|d| - 1].id in m
    ensures forall id :: id in m ==> d[0].id <= id <= d[|d| - 1].id
  {
    hide Has, Increasing;
    forall id | id in m ensures d[0].id <= id <= d[|d| - 1].id {
      EndsAreExtreme(d, id);
    }
  }

  class QixKeyStore {
    const maxCachedKeys: nat
    var keyMap: map<nat, KeyRecord>
    ghost var deque: seq<KeyRecord>

    ghost predicate Valid()
      reads this
    {
      Increasing(deque) && Holds(keyMap, deque) && |deque| <= maxCachedKeys
    }

    constructor (maxCachedKeys: nat)
      ensures Valid() && deque == [] && this.maxCachedKeys == maxCachedKeys
    {
      this.maxCachedKeys := maxCachedKeys;
      keyMap, deque := map[], [];
    }

    /** The newest id in the map. */
    method Newest() returns (id: nat)
      requires Increasing(deque) && Holds(keyMap, deque) && |keyMap| > 0
      ensures deque != [] && id == deque[|deque| - 1].id
    {
      hide Holds, Increasing;
      Extremes(keyMap, deque);
      id :| id in keyMap && forall k :: k in keyMap ==> k <= id;
    }

    method Oldest() returns (id: nat)
      requires Increasing(deque) && Holds(keyMap, deque) && |keyMap| > 0
      ensures deque != [] && id == deque[0].id
    {
      hide Holds, Increasing;
      Extremes(keyMap, deque);
      id :| id in keyMap && forall k :: k in keyMap ==> id <= k;
    }

    method AddKey(id: nat, data: seq<Byte>)
      requires Valid()
      modifies this
      ensures Valid() && deque == Push(old(deque), maxCachedKeys, MakeRecord(id, data))
    {
      hide Holds, PutBack, Increasing;
      var r := MakeRecord(id, data);
      SameSize(keyMap, deque);
      PushKeepsOrder(deque, maxCachedKeys, r);
      // an id that goes backward clears the map
      if |keyMap| > 0 {
        var newest := Newest();
        if id < newest {
          keyMap, deque := map[], [];
          HoldsNothing();
          assert Increasing(deque) by { OrderOfNothing(); }
        }
      }
      HoldsPut(keyMap, deque, r);
      keyMap, deque := keyMap[id := r], PutBack(deque, r);
      SameSize(keyMap, deque);
      if |keyMap| > maxCachedKeys {
        var oldest := Oldest();
        HoldsRemove(keyMap, deque, 0);
        assert Remove(deque, 0) == deque[1..];
        keyMap, deque := keyMap - {oldest}, deque[1..];
      }
    }

    /** Hand out the newest record. */
    method ConsumeKey() returns (r: Option<KeyRecord>)
      requires Valid()
      modifies this
      ensures Valid()
      ensures if old(deque) == [] then r == None && deque == []
              else r == Some(old(deque)[|old(deque)| - 1]) && deque == old(deque)[..|old(deque)| - 1]
    {
      hide Holds, Increasing;
      SameSize(keyMap, deque);
      if |keyMap| == 0 {
        return None;
      }
      var newest := Newest();
      HoldsAt(keyMap, deque, |deque| - 1);
      r := Some(keyMap[newest]);
      HoldsRemove(keyMap, deque, |deque| - 1);
      assert Remove(deque, |deque| - 1) == deque[..|deque| - 1];
      keyMap, deque := keyMap - {newest}, deque[..|deque| - 1];
    }

    /** Hand out the key with a given id. */
    method FindAndConsumeKey(id: nat) returns (key: Option<seq<Byte>>)
      requires Valid()
      modifies this
      ensures Valid()
      ensures var i := IndexOf(old(deque), id);
              if i == |old(deque)| then key == None && deque == old(deque)
              else key == old(deque)[i].key && deque == Remove(old(deque), i)
    {
      hide Holds, Increasing;
      ghost var i := IndexOf(deque, id);
      HoldsId(keyMap, deque, id);
      if id !in keyMap {
        return None;
      }
      HoldsAt(keyMap, deque, i);
      key := keyMap[id].key;
      HoldsRemove(keyMap, deque, i);
      keyMap, deque := keyMap - {id}, Remove(deque, i);
    }
  }

  // ---- Runs ----

  datatype Op = Add(record: KeyRecord) | Consume | Find(id: nat)

  datatype Store = Store(deque: seq<KeyRecord>, handedOut: seq<KeyRecord>)

  function Apply(s: Store, limit: nat, op: Op): Store {
    match op
    case Add(r) => s.(deque := Push(s.deque, limit, r))
    case Consume =>
      if s.deque == [] then s
      else Store(s.deque[..|s.deque| - 1], s.handedOut + [s.deque[|s.deque| - 1]])
    case Find(id) =>
      var i := IndexOf(s.deque, id);
      if i == |s.deque| then s else Store(Remove(s.deque, i), s.handedOut + [s.deque[i]])
  }

  function Run(s: Store, limit: nat, ops: seq<Op>): Store
    decreases |ops|
  {
    if ops == [] then s else Run(Apply(s, limit, ops[0]), limit, ops[1..])
  }

  function Added(ops: seq<Op>): seq<KeyRecord> {
    if ops == [] then []
    else (if ops[0].Add? then [ops[0].record] else []) + Added(ops[1..])
  }

  lemma {:induction false} SizeBounded(s: Store, limit: nat, ops: seq<Op>)
    requires |s.deque| <= limit && Increasing(s.deque)
    ensures |Run(s, limit, ops).deque| <= limit && Increasing(Run(s, limit, ops).deque)
    decreases |ops|
  {
    if ops != [] {
      if ops[0].Add? { PushKeepsOrder(s.deque, limit, ops[0].record); }
      SizeBounded(Apply(s, limit, ops[0]), limit, ops[1..]);
    }
  }

  ghost function Accounted(s: Store): multiset<KeyRecord> {
    multiset(s.deque) + multiset(s.handedOut)
  }

  lemma TakenOut(d: seq<KeyRecord>, i: nat)
    requires i < |d|
    ensures multiset(d) == multiset(Remove(d, i)) + multiset{d[i]}
  {
    assert d == d[..i] + ([d[i]] + d[i + 1..]);
  }

  lemma LastTakenOut(d: seq<KeyRecord>)
    requires d != []
    ensures multiset(d) == multiset(d[..|d| - 1]) + multiset{d[|d| - 1]}
  {
    assert d == d[..|d| - 1] + [d[|d| - 1]];
  }

  lemma ApplyAccounts(s: Store, limit: nat, op: Op)
    ensures Accounted(Apply(s, limit, op)) <= Accounted(s) + multiset(Added([op]))
  {
    hide Push, Remove, IndexOf;
    assert Added([op]) == if op.Add? then [op.record] else [];
    var d := s.deque;
    match op
    case Add(r) =>
      PushAccounts(d, limit, r);
    case Consume =>
      if d != [] { LastTakenOut(d); }
    case Find(id) =>
      if IndexOf(d, id) < |d| { TakenOut(d, IndexOf(d, id)); }
  }

  lemma PutBackAccounts(d: seq<KeyRecord>, r: KeyRecord)
    ensures multiset(PutBack(d, r)) <= multiset(d) + multiset{r}
  {
    if d != [] { assert d == d[..|d| - 1] + [d[|d| - 1]]; }
  }

  lemma DropFirst(d: seq<KeyRecord>)
    requires d != []
    ensures multiset(d[1..]) <= multiset(d)
  {
    assert d == [d[0]] + d[1..];
  }

  lemma PushAccounts(d: seq<KeyRecord>, limit: nat, r: KeyRecord)
    ensures multiset(Push(d, limit, r)) <= multiset(d) + multiset{r}
  {
    hide PutBack;
    var kept := if d != [] && r.id < d[|d| - 1].id then [] else d;
    PutBackAccounts(kept, r);
    DropFirst(PutBack(kept, r));
  }

  /** Over any mix of calls, what has been handed out and what is still stored was added, each added
      record counted once: no record is handed out twice. */
  lemma {:induction false} HandedOutAtMostOnce(s: Store, limit: nat, ops: seq<Op>)
    ensures Accounted(Run(s, limit, ops)) <= Accounted(s) + multiset(Added(ops))
    decreases |ops|
  {
    if ops != [] {
      ApplyAccounts(s, limit, ops[0]);
      HandedOutAtMostOnce(Apply(s, limit, ops[0]), limit, ops[1..]);
      assert Added([ops[0]]) == if ops[0].Add? then [ops[0].record] else [];
      assert Added(ops) == Added([ops[0]]) + Added(ops[1..]);
    }
  }

  // ---- Two stores fed the same keys ----

  const EMPTY: Store := Store([], [])

  lemma {:induction false} RunConcat(s: Store, limit: nat, a: seq<Op>, b: seq<Op>)
    ensures Run(s, limit, a + b) == Run(Run(s, limit, a), limit, b)
    decreases |a|
  {
    hide Apply;
    if a == [] {
      assert a + b == b;
    } else {
      assert (a + b)[1..] == a[1..] + b;
      RunConcat(Apply(s, limit, a[0]), limit, a[1..], b);
    }
  }

  lemma {:induction false} AddedConcat(a: seq<Op>, b: seq<Op>)
    ensures Added(a + b) == Added(a) + Added(b)
    decreases |a|
  {
    if a == [] {
      assert a + b == b;
    } else {
      assert (a + b)[1..] == a[1..] + b;
      AddedConcat(a[1..], b);
      var first := if a[0].Add? then [a[0].record] else [];
      assert first + (Added(a[1..]) + Added(b)) == (first + Added(a[1..])) + Added(b);
    }
  }

  lemma StoredWasAdded(limit: nat, ops: seq<Op>, r: KeyRecord)
    requires r in Run(EMPTY, limit, ops).deque || r in Run(EMPTY, limit, ops).handedOut
    ensures r in Added(ops)
  {
    hide Run, Added;
    var s := Run(EMPTY, limit, ops);
    HandedOutAtMostOnce(EMPTY, limit, ops);
    assert r in multiset(s.deque) || r in multiset(s.handedOut);
    assert Accounted(EMPTY) == multiset{};
    assert r in Accounted(s);
    assert r in multiset(Added(ops));
  }

  /** Only adds, and lookups of other ids. */
  predicate Spares(ops: seq<Op>, id: nat) {
    forall k :: 0 <= k < |ops| ==> ops[k].Add? || (ops[k].Find? && ops[k].id != id)
  }

  lemma KeptByPush(d: seq<KeyRecord>, limit: nat, r: KeyRecord, i: nat) returns (j: nat)
    requires Increasing(d) && i < |d| <= limit && |d| - i < limit && d[|d| - 1].id < r.id
    ensures var e := Push(d, limit, r);
            && Increasing(e) && j < |e| <= limit && e[j] == d[i]
            && |e| - j == |d| - i + 1 && e[|e| - 1] == r
  {
    PushKeepsOrder(d, limit, r);
    hide Increasing;
    j := if |d| < limit then i else i - 1;
  }

  lemma KeptByRemove(d: seq<KeyRecord>, k: nat, i: nat) returns (j: nat)
    requires Increasing(d) && i < |d| && k < |d| && k != i
    ensures var e := Remove(d, k);
            && Increasing(e) && j < |e| < |d| && e[j] == d[i]
            && |e| - j <= |d| - i && e[|e| - 1].id <= d[|d| - 1].id
  {
    j := if k < i then i - 1 else i;
  }

  /** The records still to come are in order and above everything stored. */
  predicate Follows(d: seq<KeyRecord>, more: seq<KeyRecord>) {
    Increasing(more) && (d != [] && more != [] ==> d[|d| - 1].id < more[0].id)
  }

  function AddedBy(op: Op): seq<KeyRecord> {
    if op.Add? then [op.record] else []
  }

  lemma KeptByStep(s: Store, limit: nat, op: Op, more: seq<KeyRecord>, i: nat) returns (j: nat)
    requires Increasing(s.deque) && i < |s.deque| <= limit
    requires |s.deque| - 1 - i + |AddedBy(op) + more| < limit
    requires Follows(s.deque, AddedBy(op) + more) && (op.Add? || (op.Find? && op.id != s.deque[i].id))
    ensures var e := Apply(s, limit, op).deque;
            && Increasing(e) && j < |e| <= limit && e[j] == s.deque[i]
            && |e| - 1 - j + |more| < limit && Follows(e, more)
  {
    hide Push, Remove, Increasing;
    var d := s.deque;
    j := i;
    if op.Add? {
      TailIncreasing([op.record] + more);
      assert ([op.record] + more)[1..] == more;
      j := KeptByPush(d, limit, op.record, i);
    } else {
      assert [] + more == more;
      var k := IndexOf(d, op.id);
      if k < |d| { j := KeptByRemove(d, k, i); }
    }
  }

  lemma {:induction false} Retained(s: Store, limit: nat, ops: seq<Op>, i: nat)
    requires Increasing(s.deque) && i < |s.deque| <= limit
    requires |s.deque| - 1 - i + |Added(ops)| < limit
    requires Follows(s.deque, Added(ops)) && Spares(ops, s.deque[i].id)
    ensures s.deque[i] in Run(s, limit, ops).deque
    decreases |ops|
  {
    hide Apply, Increasing, Follows;
    if ops != [] {
      assert Added(ops) == AddedBy(ops[0]) + Added(ops[1..]);
      var j := KeptByStep(s, limit, ops[0], Added(ops[1..]), i);
      Retained(Apply(s, limit, ops[0]), limit, ops[1..], j);
    }
  }

  lemma TailIncreasing(d: seq<KeyRecord>)
    requires Increasing(d) && d != []
    ensures Increasing(d[1..]) && (|d| > 1 ==> d[0].id < d[1..][0].id)
  {}

  lemma UniqueIds(d: seq<KeyRecord>, r: KeyRecord)
    requires Increasing(d) && r in d
    ensures IndexOf(d, r.id) < |d| && d[IndexOf(d, r.id)] == r
  {
    var i :| 0 <= i < |d| && d[i] == r;
  }

  /** What is added last stays while fewer than the limit are added after it. */
  lemma AddedIsFound(limit: nat, before: seq<Op>, r: KeyRecord, after: seq<Op>)
    requires Increasing(Added(before) + [r] + Added(after))
    requires Spares(after, r.id) && |Added(after)| < limit
    ensures var s := Run(EMPTY, limit, before + [Add(r)] + after);
            Apply(s, limit, Find(r.id)).handedOut == s.handedOut + [r]
  {
    hide Spares, Push, Added;
    var all := Added(before) + [r] + Added(after);
    var p := |Added(before)|;
    RunConcat(EMPTY, limit, before + [Add(r)], after);
    RunConcat(EMPTY, limit, before, [Add(r)]);
    var s0 := Run(EMPTY, limit, before);
    var s1 := Apply(s0, limit, Add(r));
    assert Run(s0, limit, [Add(r)]) == s1;
    SizeBounded(EMPTY, limit, before);
    PushKeepsOrder(s0.deque, limit, r);
    assert all[p] == r && forall k :: 0 <= k < p ==> all[k] == Added(before)[k];
    LatestIsLast(limit, before, r);
    assert forall k :: 0 <= k < |Added(after)| ==> all[p + 1 + k] == Added(after)[k];
    assert Follows(s1.deque, Added(after));
    Retained(s1, limit, after, |s1.deque| - 1);
    SizeBounded(s1, limit, after);
    UniqueIds(Run(s1, limit, after).deque, r);
  }

  /** Two stores are fed the same frames with increasing ids. Whatever record the first hands out,
      the second finds the same key under its id, as long as that id was not looked up before and
      fewer than the second store's limit of keys were added after it. */
  lemma StoresAgree(limitA: nat, opsA: seq<Op>, limitB: nat, before: seq<Op>, after: seq<Op>, r: KeyRecord, r': KeyRecord)
    requires r in Run(EMPTY, limitA, opsA).handedOut
    requires Added(opsA) == Added(before + [Add(r')] + after) && Increasing(Added(opsA)) && r.id == r'.id
    requires Spares(after, r.id) && |Added(after)| < limitB
    ensures var b := Run(EMPTY, limitB, before + [Add(r')] + after);
            r' == r && Apply(b, limitB, Find(r.id)).handedOut == b.handedOut + [r]
  {
    hide Spares, Run, Apply;
    StoredWasAdded(limitA, opsA, r);
    AddedConcat(before + [Add(r')], after);
    AddedConcat(before, [Add(r')]);
    assert Added([Add(r')]) == [r'];
    var all := Added(before) + [r'] + Added(after);
    assert Added(opsA) == all && all[|Added(before)|] == r';
    AddedIsFound(limitB, before, r', after);
  }

  lemma LatestIsLast(limit: nat, ops: seq<Op>, r: KeyRecord)
    requires limit > 0 && Increasing(Run(EMPTY, limit, ops).deque)
    requires forall k :: 0 <= k < |Added(ops)| ==> Added(ops)[k].id < r.id
    ensures var d := Push(Run(EMPTY, limit, ops).deque, limit, r); d != [] && d[|d| - 1] == r
  {
    hide Run, Added;
    var d := Run(EMPTY, limit, ops).deque;
    if d != [] {
      StoredWasAdded(limit, ops, d[|d| - 1]);
    }
  }

  // ---- The store object over a whole run ----

  /** The keys among some records. */
  function KeysOf(records: seq<KeyRecord>): seq<seq<Byte>> {
    if records == [] then []
    else KeysOf(records[..|records| - 1]) + KeyOf(records[|records| - 1].key)
  }

  function KeyOf(key: Option<seq<Byte>>): seq<seq<Byte>> {
    if key.Some? then [key.value] else []
  }

  lemma KeysOfMore(records: seq<KeyRecord>, r: KeyRecord)
    ensures KeysOf(records + [r]) == KeysOf(records) + KeyOf(r.key)
  {
    assert (records + [r])[..|records|] == records;
  }

  /** Records as they come out of frames. */
  predicate Storable(op: Op) {
    op.Add? && op.record.key.Some? ==> |op.record.key.value| == 32
  }

  method Perform(store: QixKeyStore, op: Op, ghost s: Store) returns (keys: seq<seq<Byte>>)
    requires store.Valid() && Storable(op) && s.deque == store.deque
    modifies store
    ensures store.Valid() && store.deque == Apply(s, store.maxCachedKeys, op).deque
    ensures KeysOf(Apply(s, store.maxCachedKeys, op).handedOut) == KeysOf(s.handedOut) + keys
  {
    hide Push, Holds, Increasing, KeysOf;
    keys := [];
    match op {
      case Add(r) =>
        store.AddKey(r.id, if r.key.Some? then r.key.value else []);
      case Consume =>
        ghost var d := store.deque;
        var r := store.ConsumeKey();
        if r.Some? {
          KeysOfMore(s.handedOut, d[|d| - 1]);
          keys := KeyOf(r.value.key);
        }
      case Find(id) =>
        ghost var i := IndexOf(store.deque, id);
        ghost var d := store.deque;
        var key := store.FindAndConsumeKey(id);
        if i < |d| {
          KeysOfMore(s.handedOut, d[i]);
        }
        keys := KeyOf(key);
    }
  }

  /** Any sequence of calls on a store object hands out the keys that the run of the deque says. */
  method Drive(limit: nat, ops: seq<Op>) returns (store: QixKeyStore, keys: seq<seq<Byte>>)
    requires forall n :: 0 <= n < |ops| ==> Storable(ops[n])
    ensures store.Valid() && store.deque == Run(EMPTY, limit, ops).deque
    ensures keys == KeysOf(Run(EMPTY, limit, ops).handedOut)
  {
    hide Apply, KeysOf;
    store := new QixKeyStore(limit);
    keys := [];
    ghost var s := EMPTY;
    assert KeysOf([]) == [] by { NoKeys(); }
    for n := 0 to |ops|
      invariant store.Valid() && fresh(store) && store.maxCachedKeys == limit && s.deque == store.deque
      invariant keys == KeysOf(s.handedOut) && Run(EMPTY, limit, ops) == Run(s, limit, ops[n..])
    {
      assert ops[n..][1..] == ops[n + 1..];
      var more := Perform(store, ops[n], s);
      s := Apply(s, limit, ops[n]);
      keys := keys + more;
    }
  }

  lemma NoKeys()
    ensures KeysOf([]) == []
  {}

  // ---- Counting ids ----

  function Ids(records: seq<KeyRecord>): seq<nat> {
    seq(|records|, i requires 0 <= i < |records| => records[i].id)
  }

  lemma IdsConcat(a: seq<KeyRecord>, b: seq<KeyRecord>)
    ensures Ids(a + b) == Ids(a) + Ids(b)
  {}

  lemma IdsTakenOut(d: seq<KeyRecord>, i: nat)
    requires i < |d|
    ensures multiset(Ids(d)) == multiset(Ids(Remove(d, i))) + multiset{d[i].id}
  {
    IdsConcat(d[..i], d[i + 1..]);
    IdsConcat(d[..i], [d[i]] + d[i + 1..]);
    IdsConcat([d[i]], d[i + 1..]);
    assert d == d[..i] + ([d[i]] + d[i + 1..]);
    assert Ids([d[i]]) == [d[i].id];
  }

  /** Fewer records have fewer ids. */
  lemma {:induction false} IdsFollow(a: seq<KeyRecord>, b: seq<KeyRecord>)
    requires multiset(a) <= multiset(b)
    ensures multiset(Ids(a)) <= multiset(Ids(b))
    decreases |a|
  {
    hide Ids;
    if a == [] {
      NoIds();
    } else {
      var r := a[0];
      assert r in multiset(a);
      var i :| 0 <= i < |b| && b[i] == r;
      TakenOut(a, 0);
      TakenOut(b, i);
      FewerWithout(multiset(Remove(a, 0)), multiset(Remove(b, i)), r);
      IdsFollow(Remove(a, 0), Remove(b, i));
      IdsTakenOut(a, 0);
      IdsTakenOut(b, i);
    }
  }

  lemma FewerWithout(a: multiset<KeyRecord>, b: multiset<KeyRecord>, r: KeyRecord)
    requires a + multiset{r} <= b + multiset{r}
    ensures a <= b
  {
    forall x | x in a ensures a[x] <= b[x] {
      assert (a + multiset{r})[x] <= (b + multiset{r})[x];
    }
  }

  lemma NoIds()
    ensures Ids([]) == []
  {}

  lemma PushedIds(d: seq<KeyRecord>, limit: nat, r: KeyRecord)
    ensures multiset(Ids(Push(d, limit, r))) <= multiset(Ids(d)) + multiset{r.id}
  {
    hide Push;
    PushAccounts(d, limit, r);
    assert multiset(d + [r]) == multiset(d) + multiset{r};
    IdsFollow(Push(d, limit, r), d + [r]);
    IdsConcat(d, [r]);
    assert Ids([r]) == [r.id];
  }

  /** What is left after a lookup. */
  function AfterFind(d: seq<KeyRecord>, id: nat): seq<KeyRecord> {
    if IndexOf(d, id) < |d| then Remove(d, IndexOf(d, id)) else d
  }

  /** The key a lookup finds. */
  function Found(d: seq<KeyRecord>, id: nat): Option<seq<Byte>> {
    if IndexOf(d, id) < |d| then d[IndexOf(d, id)].key else None
  }

  /** What adding a record makes of the store, id by id: an id below the newest empties it first, the
      record itself can be found, and a full store gives up its oldest. */
  lemma PushedExactly(d: seq<KeyRecord>, limit: nat, r: KeyRecord, id: nat)
    requires Increasing(d) && |d| <= limit && limit > 0
    ensures Found(Push(d, limit, r), id) ==
            if id == r.id then r.key
            else if d != [] && r.id < d[|d| - 1].id then None
            else if |d| == limit && d[|d| - 1].id < r.id && id == d[0].id then None
            else Found(d, id)
  {
    hide IndexOf;
    PushKeepsOrder(d, limit, r);
    var e := Push(d, limit, r);
    FoundAt(d, id);
    FoundAt(e, id);
    if d != [] && r.id < d[|d| - 1].id {
      assert e == [r];
    } else if d != [] && r.id == d[|d| - 1].id {
      assert e == d[..|d| - 1] + [r];
    } else if |d| < limit {
      assert e == d + [r];
    } else {
      assert e == (d + [r])[1..];
    }
    if id == r.id {
      assert e[|e| - 1] == r;
    } else {
      SameFound(d, e, r, id);
    }
  }

  lemma FoundAt(d: seq<KeyRecord>, id: nat)
    requires Increasing(d)
    ensures forall i :: 0 <= i < |d| && d[i].id == id ==> IndexOf(d, id) == i && Found(d, id) == d[i].key
    ensures (forall i :: 0 <= i < |d| ==> d[i].id != id) ==> Found(d, id) == None
  {}

  lemma SameFound(d: seq<KeyRecord>, e: seq<KeyRecord>, r: KeyRecord, id: nat)
    requires Increasing(d) && Increasing(e) && id != r.id
    requires e == [r] || (d != [] && e == d[..|d| - 1] + [r] && r.id == d[|d| - 1].id) || e == d + [r] || (d != [] && e == (d + [r])[1..])
    ensures e == [r] ==> Found(e, id) == None
    ensures d != [] && e == d[..|d| - 1] + [r] && r.id == d[|d| - 1].id ==> Found(e, id) == Found(d, id)
    ensures e == d + [r] ==> Found(e, id) == Found(d, id)
    ensures d != [] && e == (d + [r])[1..] ==> Found(e, id) == if id == d[0].id then None else Found(d, id)
  {
    hide IndexOf, Found;
    FoundAt(d, id);
    FoundAt(e, id);
    if i :| 0 <= i < |d| && d[i].id == id {
      if e == d + [r] { assert e[i] == d[i]; }
      if d != [] && e == (d + [r])[1..] && i > 0 { assert e[i - 1] == d[i]; }
      if d != [] && e == d[..|d| - 1] + [r] && i < |d| - 1 { assert e[i] == d[i]; }
    }
  }
}
