/** The QIX key feed: fixed 47-octet frames, and a parser that finds them in a stream with gaps. */
module QixFrames {
  import opened Bytes
  import opened Crc32

  const QIX_SYNC1: Byte := 0x5A
  const QIX_SYNC2: Byte := 0xA5
  const KEY_SIZE: nat := 32
  const FRAME_SIZE: nat := 47

  datatype Status = StatusOk | KeyCompromised | Undefined

  datatype QixFrame = QixFrame(keyId: nat, keyData: seq<Byte>, status: Status)

  function StatusOf(b: Byte): Status {
    if b == 0x01 then StatusOk else if b == 0xFF then KeyCompromised else Undefined
  }

  // ---- Layout ----

  /** Key id, key and status: the octets the CRC covers. */
  function Covered(keyId: nat, keyData: seq<Byte>, status: Byte): seq<Byte> {
    BigEndian(keyId, 8) + keyData + [status]
  }

  function Encode(keyId: nat, keyData: seq<Byte>, status: Byte): (s: seq<Byte>)
    requires |keyData| == KEY_SIZE
    ensures |s| == FRAME_SIZE
  {
    var covered := Covered(keyId, keyData, status);
    [QIX_SYNC1, QIX_SYNC2] + covered + CrcField(Crc(covered))
  }

  predicate CrcOk(w: seq<Byte>)
    requires |w| == FRAME_SIZE
  {
    Crc(w[2..43]) == ReadCrcField(w[43..])
  }

  function FrameOf(w: seq<Byte>): QixFrame
    requires |w| == FRAME_SIZE
  {
    QixFrame(FromBigEndian(w[2..10]), w[10..42], StatusOf(w[42]))
  }

  lemma EncodeReadsBack(keyId: nat, keyData: seq<Byte>, status: Byte)
    requires keyId < Pow256(8) && |keyData| == KEY_SIZE
    ensures CrcOk(Encode(keyId, keyData, status))
    ensures FrameOf(Encode(keyId, keyData, status)) == QixFrame(keyId, keyData, StatusOf(status))
    ensures StatusOf(status) == StatusOk <==> status == 0x01
    ensures StatusOf(status) == KeyCompromised <==> status == 0xFF
  {
    hide Crc, CrcField, ReadCrcField, BigEndian, FromBigEndian, Pow256;
    var w, covered := Encode(keyId, keyData, status), Covered(keyId, keyData, status);
    assert w[2..43] == covered && w[43..] == CrcField(Crc(covered));
    CrcFieldRoundTrip(Crc(covered));
    assert w[2..10] == covered[..8] == BigEndian(keyId, 8) && w[10..42] == keyData && w[42] == status;
    BigEndianRoundTrip(keyId, 8);
  }

  // ---- Pure parsing of a stream ----

  /** A frame may start at k: both synchronisation octets, or the first one at the very end. */
  predicate SyncAt(w: seq<Byte>, k: nat)
    requires k < |w|
  {
    w[k] == QIX_SYNC1 && (k + 1 == |w| || w[k + 1] == QIX_SYNC2)
  }

  function FindSync(w: seq<Byte>, k: nat): (r: nat)
    requires k <= |w|
    ensures k <= r <= |w|
    ensures r < |w| ==> SyncAt(w, r)
    ensures forall j :: k <= j < r ==> !SyncAt(w, j)
    decreases |w| - k
  {
    if k == |w| || SyncAt(w, k) then k else FindSync(w, k + 1)
  }

  /** A frame, and the part of the stream not yet read when it is delivered. */
  datatype Delivery = Delivery(frame: QixFrame, unread: seq<Byte>)

  /** Look at 47 octets at a time: drop what cannot start a frame, or take them as a whole frame and
      deliver it if its CRC is right. */
  function Deliveries(s: seq<Byte>): seq<Delivery>
    decreases |s|
  {
    if |s| < FRAME_SIZE then []
    else
      var w := s[..FRAME_SIZE];
      var k := FindSync(w, 0);
      if k > 0 then Deliveries(s[k..])
      else if CrcOk(w) then [Delivery(FrameOf(w), s[FRAME_SIZE..])] + Deliveries(s[FRAME_SIZE..])
      else Deliveries(s[FRAME_SIZE..])
  }

  lemma DeliveriesUnfold(s: seq<Byte>)
    ensures Deliveries(s) ==
            if |s| < FRAME_SIZE then []
            else if FindSync(s[..FRAME_SIZE], 0) > 0 then Deliveries(s[FindSync(s[..FRAME_SIZE], 0)..])
            else (if CrcOk(s[..FRAME_SIZE]) then [Delivery(FrameOf(s[..FRAME_SIZE]), s[FRAME_SIZE..])] else [])
                 + Deliveries(s[FRAME_SIZE..])
  {
    hide CrcOk, FrameOf, FindSync;
  }

  // ---- Frames separated by gaps are all delivered ----

  predicate NoSyncPair(gap: seq<Byte>) {
    forall i :: 0 <= i < |gap| - 1 ==> !(gap[i] == QIX_SYNC1 && gap[i + 1] == QIX_SYNC2)
  }

  lemma {:induction false} GapSkipped(gap: seq<Byte>, t: seq<Byte>)
    requires NoSyncPair(gap) && |t| >= FRAME_SIZE && t[0] == QIX_SYNC1 && t[1] == QIX_SYNC2
    ensures Deliveries(gap + t) == Deliveries(t)
    decreases |gap|
  {
    hide CrcOk;
    if gap == [] {
      assert gap + t == t;
    } else {
      var s := gap + t;
      var w := s[..FRAME_SIZE];
      assert w[0] == gap[0] && w[1] == (if |gap| == 1 then t[0] else gap[1]);
      assert !SyncAt(w, 0);
      if |gap| < FRAME_SIZE {
        assert w[|gap|] == t[0] && (|gap| + 1 < FRAME_SIZE ==> w[|gap| + 1] == t[1]);
        assert SyncAt(w, |gap|);
      }
      var k := FindSync(w, 0);
      assert s[k..] == gap[k..] + t;
      GapSkipped(gap[k..], t);
    }
  }

  lemma {:induction false} GapDeliversNothing(gap: seq<Byte>)
    requires NoSyncPair(gap)
    ensures Deliveries(gap) == []
    decreases |gap|
  {
    hide CrcOk;
    if |gap| >= FRAME_SIZE {
      assert !SyncAt(gap[..FRAME_SIZE], 0);
      GapDeliversNothing(gap[FindSync(gap[..FRAME_SIZE], 0)..]);
    }
  }

  /** A key on the wire with its status octet. */
  datatype Key = Key(id: nat, data: seq<Byte>, status: Byte)

  predicate Sendable(k: Key) { k.id < Pow256(8) && |k.data| == KEY_SIZE }

  /** gaps[0], key 0, gaps[1], key 1, ..., last gap. */
  function Weave(gaps: seq<seq<Byte>>, keys: seq<Key>): seq<Byte>
    requires |gaps| == |keys| + 1 && forall i :: 0 <= i < |keys| ==> Sendable(keys[i])
  {
    if keys == [] then gaps[0]
    else
      assert Sendable(keys[0]);
      gaps[0] + Encode(keys[0].id, keys[0].data, keys[0].status) + Weave(gaps[1..], keys[1..])
  }

  /** Every frame is delivered, in order and with the fields that were written, at the moment its
      last octet has been read: what is unread then is exactly what follows the frame. */
  lemma {:induction false} AllDelivered(gaps: seq<seq<Byte>>, keys: seq<Key>)
    requires |gaps| == |keys| + 1 && forall i :: 0 <= i < |keys| ==> Sendable(keys[i])
    requires forall g :: g in gaps ==> NoSyncPair(g)
    ensures |Deliveries(Weave(gaps, keys))| == |keys|
    ensures forall i :: 0 <= i < |keys| ==>
              Deliveries(Weave(gaps, keys))[i] == Delivery(QixFrame(keys[i].id, keys[i].data, StatusOf(keys[i].status)), Weave(gaps[i + 1..], keys[i + 1..]))
    decreases |keys|
  {
    hide CrcOk, Encode, FrameOf, NoSyncPair;
    if keys == [] {
      GapDeliversNothing(gaps[0]);
    } else {
      assert Sendable(keys[0]);
      var e, rest := Encode(keys[0].id, keys[0].data, keys[0].status), Weave(gaps[1..], keys[1..]);
      var s := e + rest;
      assert Weave(gaps, keys) == gaps[0] + s;
      EncodeStarts(keys[0]);
      GapSkipped(gaps[0], s);
      EncodeReadsBack(keys[0].id, keys[0].data, keys[0].status);
      assert s[..FRAME_SIZE] == e && s[FRAME_SIZE..] == rest;
      AllDelivered(gaps[1..], keys[1..]);
      forall i | 0 < i < |keys|
        ensures gaps[1..][i..] == gaps[i + 1..] && keys[1..][i..] == keys[i + 1..] && keys[1..][i - 1] == keys[i]
      {}
    }
  }

  lemma EncodeStarts(k: Key)
    requires Sendable(k)
    ensures Encode(k.id, k.data, k.status)[0] == QIX_SYNC1 && Encode(k.id, k.data, k.status)[1] == QIX_SYNC2
  {}

  // ---- Delivered frames were on the wire ----

  lemma WindowIsEncoding(w: seq<Byte>)
    requires |w| == FRAME_SIZE && w[0] == QIX_SYNC1 && w[1] == QIX_SYNC2 && CrcOk(w)
    ensures var f := FrameOf(w);
            && f.keyId < Pow256(8) && |f.keyData| == KEY_SIZE && f.status == StatusOf(w[42])
            && w == Encode(f.keyId, f.keyData, w[42])
  {
    hide Crc, CrcField, ReadCrcField, BigEndian, FromBigEndian, Pow256;
    BigEndianCanonical(w[2..10]);
    CrcFieldCanonical(w[43..]);
    assert w[2..43] == w[2..10] + w[10..42] + [w[42]];
    assert w == [w[0], w[1]] + w[2..43] + w[43..];
  }

  /** The stream is the delivered frames, encoded, in order, with gaps between them: every delivered
      frame has a valid CRC, and none is made up, repeated or reordered. */
  lemma {:induction false} FramesWereSent(s: seq<Byte>) returns (gaps: seq<seq<Byte>>, keys: seq<Key>)
    ensures |keys| == |Deliveries(s)| && |gaps| == |keys| + 1
    ensures forall i :: 0 <= i < |keys| ==> Sendable(keys[i])
    ensures forall i :: 0 <= i < |keys| ==> Deliveries(s)[i].frame == QixFrame(keys[i].id, keys[i].data, StatusOf(keys[i].status))
    ensures s == Weave(gaps, keys)
    decreases |s|
  {
    hide CrcOk, Encode, FrameOf, Sendable, Deliveries;
    DeliveriesUnfold(s);
    if |s| < FRAME_SIZE {
      gaps, keys := [s], [];
    } else {
      var w := s[..FRAME_SIZE];
      var k := FindSync(w, 0);
      var skip := if k > 0 then k else FRAME_SIZE;
      gaps, keys := FramesWereSent(s[skip..]);
      if k == 0 && CrcOk(w) {
        WindowIsEncoding(w);
        var key := Key(FrameOf(w).keyId, FrameOf(w).keyData, w[42]);
        assert Sendable(key) by { SendableKey(key); }
        var old_gaps, old_keys := gaps, keys;
        gaps, keys := [[]] + old_gaps, [key] + old_keys;
        assert gaps[1..] == old_gaps && keys[1..] == old_keys;
        assert s == [] + w + s[FRAME_SIZE..];
      } else {
        var old_gaps := gaps;
        gaps := [s[..skip] + old_gaps[0]] + old_gaps[1..];
        LongerGap(s[..skip], old_gaps, keys);
        assert s == s[..skip] + s[skip..];
      }
    }
  }

  lemma SendableKey(key: Key)
    requires key.id < Pow256(8) && |key.data| == KEY_SIZE
    ensures Sendable(key)
  {}

  lemma LongerGap(front: seq<Byte>, gaps: seq<seq<Byte>>, keys: seq<Key>)
    requires |gaps| == |keys| + 1 && forall i :: 0 <= i < |keys| ==> Sendable(keys[i])
    ensures Weave([front + gaps[0]] + gaps[1..], keys) == front + Weave(gaps, keys)
  {
    hide Encode;
    var more := [front + gaps[0]] + gaps[1..];
    assert more[1..] == gaps[1..];
  }

  /** A written frame whose covered octets are changed within four consecutive octets is tossed whole. */
  lemma DamageDetected(before: seq<Byte>, part: seq<Byte>, after: seq<Byte>, damaged: seq<Byte>, rest: seq<Byte>)
    requires |before + part + after| == FRAME_SIZE - 6 && |part| == |damaged| <= 4 && damaged != part
    ensures var w := [QIX_SYNC1, QIX_SYNC2] + (before + damaged + after) + CrcField(Crc(before + part + after));
            Deliveries(w + rest) == Deliveries(rest)
  {
    hide Crc, CrcField, ReadCrcField, FrameOf;
    var good, bad := before + part + after, before + damaged + after;
    var w := [QIX_SYNC1, QIX_SYNC2] + bad + CrcField(Crc(good));
    assert w[2..43] == bad && w[43..] == CrcField(Crc(good));
    CrcFieldRoundTrip(Crc(good));
    if Crc(bad) == Crc(good) {
      BurstDetected(before, damaged, part, after);
    }
    assert !CrcOk(w) && SyncAt(w, 0);
    assert (w + rest)[..FRAME_SIZE] == w && (w + rest)[FRAME_SIZE..] == rest;
  }

  // ---- The writer ----

  /** The writer sends every key as good. */
  method WriteFrame(id: nat, data: seq<Byte>) returns (frame: Option<seq<Byte>>)
    requires id < Pow256(8)
    ensures frame.Some? <==> |data| == KEY_SIZE
    ensures frame.Some? ==> frame.value == Weave([[], []], [Key(id, data, 0x01)])
  {
    if |data| != KEY_SIZE {
      return None;
    }
    var covered := BigEndian(id, 8) + data + [0x01];
    var crc := Calc(covered);
    frame := Some([0x5A, 0xA5] + covered + CrcField(crc));
    assert Weave([[]], []) == [];
  }

  // ---- The parser object ----

  class QixFrameParser {
    const buffer: array<Byte>
    var numBytesBuffered: nat

    ghost predicate Valid()
      reads this
    {
      buffer.Length == FRAME_SIZE && numBytesBuffered <= FRAME_SIZE
    }

    constructor ()
      ensures Valid() && fresh(buffer) && numBytesBuffered == 0
    {
      buffer := new Byte[FRAME_SIZE](i => 0);
      numBytesBuffered := 0;
    }

    /** Fill the free part of the buffer, which is what the reader does before every parse. */
    method Fill(data: seq<Byte>)
      requires Valid() && |data| == FRAME_SIZE - numBytesBuffered
      modifies buffer
      ensures buffer[..] == old(buffer[..numBytesBuffered]) + data
    {
      forall i | numBytesBuffered <= i < FRAME_SIZE {
        buffer[i] := data[i - numBytesBuffered];
      }
    }

    method ScanForSync() returns (discarded: nat)
      requires Valid()
      ensures discarded == FindSync(buffer[..], 0)
    {
      discarded := 0;
      while discarded < FRAME_SIZE
        invariant 0 <= discarded <= FRAME_SIZE
        invariant FindSync(buffer[..], 0) == FindSync(buffer[..], discarded)
      {
        if discarded + 1 == FRAME_SIZE {
          if buffer[discarded] == QIX_SYNC1 {
            return;
          }
        } else if buffer[discarded] == QIX_SYNC1 && buffer[discarded + 1] == QIX_SYNC2 {
          return;
        }
        discarded := discarded + 1;
      }
    }

    /** Parse a full buffer: shift, toss or deliver. */
    method Parse() returns (frame: Option<QixFrame>)
      requires Valid()
      modifies this, buffer
      ensures Valid()
      ensures var w := old(buffer[..]);
              var k := FindSync(w, 0);
              if k > 0 then frame == None && buffer[..numBytesBuffered] == w[k..]
              else numBytesBuffered == 0 && frame == if CrcOk(w) then Some(FrameOf(w)) else None
    {
      hide Crc, ReadCrcField, FromBigEndian;
      ghost var w := buffer[..];
      var k := ScanForSync();
      numBytesBuffered := 0;
      if k > 0 {
        numBytesBuffered := FRAME_SIZE - k;
        forall i | 0 <= i < numBytesBuffered {
          buffer[i] := buffer[k + i];
        }
        return None;
      }
      assert w[2..43] == buffer[2..43] && w[43..] == buffer[43..47] && w[2..10] == buffer[2..10] && w[10..42] == buffer[10..42];
      var calculated := Calc(buffer[2..43]);
      if calculated != ReadCrcField(buffer[43..47]) {
        return None;
      }
      frame := Some(QixFrame(FromBigEndian(buffer[2..10]), buffer[10..42], StatusOf(buffer[42])));
    }
  }

  /** Run fill and parse over a stream for as long as it can fill the buffer. */
  method ReadStream(stream: seq<Byte>) returns (out: seq<Delivery>)
    ensures out == Deliveries(stream)
  {
    hide CrcOk, FrameOf, FindSync, Deliveries;
    var parser := new QixFrameParser();
    out := [];
    var unread := stream;
    assert parser.buffer[..parser.numBytesBuffered] + unread == stream;
    while |unread| >= FRAME_SIZE - parser.numBytesBuffered
      invariant parser.Valid() && fresh(parser) && fresh(parser.buffer)
      invariant parser.numBytesBuffered < FRAME_SIZE
      invariant Deliveries(stream) == out + Deliveries(parser.buffer[..parser.numBytesBuffered] + unread)
      decreases |unread|
    {
      ghost var s := parser.buffer[..parser.numBytesBuffered] + unread;
      var n := FRAME_SIZE - parser.numBytesBuffered;
      parser.Fill(unread[..n]);
      ghost var w := parser.buffer[..];
      unread := unread[n..];
      assert w == s[..FRAME_SIZE] && unread == s[FRAME_SIZE..];
      DeliveriesUnfold(s);
      ghost var k := FindSync(w, 0);
      var frame := parser.Parse();
      assert k > 0 ==> s[k..] == parser.buffer[..parser.numBytesBuffered] + unread;
      assert k == 0 ==> parser.buffer[..parser.numBytesBuffered] + unread == unread;
      if frame.Some? {
        out := out + [Delivery(frame.value, unread)];
      }
    }
    DeliveriesUnfold(parser.buffer[..parser.numBytesBuffered] + unread);
  }
}
