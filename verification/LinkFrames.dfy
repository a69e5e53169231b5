/** Link-layer frames and a pure, restartable parser of octet streams into frames.

    A frame is a 12-octet header (two synchronisation octets, destination, source, payload length,
    CRC of those eight octets) followed by the payload and the CRC of the payload. */
module LinkFrames {
  import opened Bytes
  import opened Crc32

  const SYNC1: Byte := 0x07
  const SYNC2: Byte := 0xAA
  const HEADER_FIELDS_SIZE: nat := 8
  const HEADER_SIZE: nat := 12
  const MIN_FRAME_SIZE: nat := 16
  const MAX_CONFIG_PAYLOAD_SIZE: nat := 4092

  datatype Frame = Frame(destination: nat, source: nat, payload: seq<Byte>)

  /** A frame whose addresses and payload length fit their two-octet fields. */
  predicate Encodable(f: Frame) {
    f.destination < 0x1_0000 && f.source < 0x1_0000 && |f.payload| < 0x1_0000
  }

  // ---- Encoding ----

  function HeaderFields(destination: nat, source: nat, length: nat): (h: seq<Byte>)
    ensures |h| == HEADER_FIELDS_SIZE
  {
    [SYNC1, SYNC2] + BigEndian(destination, 2) + BigEndian(source, 2) + BigEndian(length, 2)
  }

  function Header(destination: nat, source: nat, length: nat): (h: seq<Byte>)
    ensures |h| == HEADER_SIZE
  {
    var fields := HeaderFields(destination, source, length);
    fields + CrcField(Crc(fields))
  }

  function Encode(f: Frame): (s: seq<Byte>)
    ensures |s| == MIN_FRAME_SIZE + |f.payload|
  {
    Header(f.destination, f.source, |f.payload|) + f.payload + CrcField(Crc(f.payload))
  }

  // ---- Decoding ----

  predicate HeaderCrcOk(h: seq<Byte>)
    requires |h| == HEADER_SIZE
  {
    Crc(h[..8]) == ReadCrcField(h[8..])
  }

  function PayloadLength(h: seq<Byte>): (n: nat)
    requires |h| == HEADER_SIZE
    ensures n < 0x1_0000
  {
    BigEndianCanonical(h[6..8]);
    assert Pow256(2) == 0x1_0000;
    FromBigEndian(h[6..8])
  }

  /** The size of the whole frame that header h announces. */
  function FrameSize(h: seq<Byte>): (n: nat)
    requires |h| == HEADER_SIZE
  {
    MIN_FRAME_SIZE + PayloadLength(h)
  }

  predicate IsFrame(s: seq<Byte>) {
    |s| >= HEADER_SIZE && |s| == FrameSize(s[..HEADER_SIZE])
  }

  predicate BodyCrcOk(s: seq<Byte>)
    requires IsFrame(s)
  {
    Crc(s[HEADER_SIZE..|s| - 4]) == ReadCrcField(s[|s| - 4..])
  }

  function FrameOf(s: seq<Byte>): Frame
    requires IsFrame(s)
  {
    Frame(FromBigEndian(s[2..4]), FromBigEndian(s[4..6]), s[HEADER_SIZE..|s| - 4])
  }

  datatype ScanResult = More(pending: seq<Byte>) | Got(frame: Frame, rest: seq<Byte>)

  /** Look for the first frame of s with at most maxPayload payload octets. A bad header hands its
      octets after the two synchronisation octets back to the input; an oversized header or a bad
      body is dropped whole. `pending` is what must be kept when the input ends too early. */
  function Scan(s: seq<Byte>, maxPayload: nat): ScanResult
    decreases |s|
  {
    if s == [] then More([])
    else if s[0] != SYNC1 then Scan(s[1..], maxPayload)
    else if |s| < 2 then More(s)
    else if s[1] != SYNC2 then Scan(s[2..], maxPayload)
    else if |s| < HEADER_SIZE then More(s)
    else
      var h := s[..HEADER_SIZE];
      if !HeaderCrcOk(h) then Scan(s[2..], maxPayload)
      else if PayloadLength(h) > maxPayload then Scan(s[HEADER_SIZE..], maxPayload)
      else
        var n := FrameSize(h);
        if |s| < n then More(s)
        else
          assert s[..n][..HEADER_SIZE] == h;
          if !BodyCrcOk(s[..n]) then Scan(s[n..], maxPayload)
          else Got(FrameOf(s[..n]), s[n..])
  }

  lemma ScanSkips(s: seq<Byte>, maxPayload: nat)
    requires s != [] && s[0] != SYNC1
    ensures Scan(s, maxPayload) == Scan(s[1..], maxPayload)
  {}

  lemma ScanBadSync(s: seq<Byte>, maxPayload: nat)
    requires |s| >= 2 && s[0] == SYNC1 && s[1] != SYNC2
    ensures Scan(s, maxPayload) == Scan(s[2..], maxPayload)
  {}

  /** A bad header hands back all its octets except the two synchronisation octets. */
  lemma ScanBadHeader(s: seq<Byte>, maxPayload: nat)
    requires |s| >= HEADER_SIZE && s[0] == SYNC1 && s[1] == SYNC2 && !HeaderCrcOk(s[..HEADER_SIZE])
    ensures Scan(s, maxPayload) == Scan(s[2..], maxPayload)
  {}

  lemma ScanOversized(s: seq<Byte>, maxPayload: nat)
    requires |s| >= HEADER_SIZE && s[0] == SYNC1 && s[1] == SYNC2 && HeaderCrcOk(s[..HEADER_SIZE])
    requires PayloadLength(s[..HEADER_SIZE]) > maxPayload
    ensures Scan(s, maxPayload) == Scan(s[HEADER_SIZE..], maxPayload)
  {}

  lemma ScanWhole(s: seq<Byte>, n: nat, maxPayload: nat)
    requires HEADER_SIZE <= n <= |s| && s[0] == SYNC1 && s[1] == SYNC2 && HeaderCrcOk(s[..HEADER_SIZE])
    requires n == FrameSize(s[..HEADER_SIZE]) <= MIN_FRAME_SIZE + maxPayload
    ensures IsFrame(s[..n])
    ensures Scan(s, maxPayload) == if BodyCrcOk(s[..n]) then Got(FrameOf(s[..n]), s[n..]) else Scan(s[n..], maxPayload)
  {
    assert s[..n][..HEADER_SIZE] == s[..HEADER_SIZE];
  }

  lemma {:induction false} GotShrinks(s: seq<Byte>, maxPayload: nat)
    requires Scan(s, maxPayload).Got?
    ensures |Scan(s, maxPayload).rest| < |s|
    decreases |s|
  {
    hide Crc, ReadCrcField, FromBigEndian;
    if s[0] != SYNC1 {
      GotShrinks(s[1..], maxPayload);
    } else if s[1] != SYNC2 || !HeaderCrcOk(s[..HEADER_SIZE]) {
      GotShrinks(s[2..], maxPayload);
    } else if PayloadLength(s[..HEADER_SIZE]) > maxPayload {
      GotShrinks(s[HEADER_SIZE..], maxPayload);
    } else {
      var n := FrameSize(s[..HEADER_SIZE]);
      assert s[..n][..HEADER_SIZE] == s[..HEADER_SIZE];
      if !BodyCrcOk(s[..n]) { GotShrinks(s[n..], maxPayload); }
    }
  }

  /** Every frame of an octet stream. */
  function Frames(s: seq<Byte>, maxPayload: nat): seq<Frame>
    decreases |s|
  {
    match Scan(s, maxPayload)
    case More(_) => []
    case Got(f, rest) => GotShrinks(s, maxPayload); [f] + Frames(rest, maxPayload)
  }

  // ---- Restarting ----

  /** Input that arrives after the scan stopped may be appended to what was kept. */
  lemma {:induction false} ScanExtends(s: seq<Byte>, t: seq<Byte>, maxPayload: nat)
    ensures Scan(s, maxPayload).More? ==> Scan(s + t, maxPayload) == Scan(Scan(s, maxPayload).pending + t, maxPayload)
    ensures Scan(s, maxPayload).Got? ==>
              Scan(s + t, maxPayload) == Got(Scan(s, maxPayload).frame, Scan(s, maxPayload).rest + t)
    decreases |s|
  {
    hide Crc, ReadCrcField, FromBigEndian;
    if s == [] {
      assert s + t == t;
    } else if s[0] != SYNC1 {
      assert (s + t)[1..] == s[1..] + t;
      ScanExtends(s[1..], t, maxPayload);
    } else if |s| >= 2 && s[1] != SYNC2 {
      assert (s + t)[2..] == s[2..] + t;
      ScanExtends(s[2..], t, maxPayload);
    } else if |s| >= HEADER_SIZE {
      var h := s[..HEADER_SIZE];
      assert (s + t)[..HEADER_SIZE] == h;
      if !HeaderCrcOk(h) {
        assert (s + t)[2..] == s[2..] + t;
        ScanExtends(s[2..], t, maxPayload);
      } else if PayloadLength(h) > maxPayload {
        assert (s + t)[HEADER_SIZE..] == s[HEADER_SIZE..] + t;
        ScanExtends(s[HEADER_SIZE..], t, maxPayload);
      } else if |s| >= FrameSize(h) {
        var n := FrameSize(h);
        assert (s + t)[..n] == s[..n] && (s + t)[n..] == s[n..] + t && s[..n][..HEADER_SIZE] == h;
        if !BodyCrcOk(s[..n]) { ScanExtends(s[n..], t, maxPayload); }
      }
    }
  }

  // ---- What the writer produces is read back ----

  lemma EncodeIsFrame(f: Frame)
    requires Encodable(f)
    ensures IsFrame(Encode(f)) && FrameOf(Encode(f)) == f
    ensures HeaderCrcOk(Encode(f)[..HEADER_SIZE]) && BodyCrcOk(Encode(f))
  {
    hide Crc, ReadCrcField, CrcField, FromBigEndian, BigEndian;
    var e, n := Encode(f), |f.payload|;
    var fields := HeaderFields(f.destination, f.source, n);
    assert Pow256(2) == 0x1_0000;
    BigEndianRoundTrip(f.destination, 2);
    BigEndianRoundTrip(f.source, 2);
    BigEndianRoundTrip(n, 2);
    assert e[2..4] == BigEndian(f.destination, 2) && e[4..6] == BigEndian(f.source, 2);
    var h := e[..HEADER_SIZE];
    assert h == fields + CrcField(Crc(fields));
    assert h[..8] == fields && h[8..] == CrcField(Crc(fields));
    assert h[6..8] == fields[6..8] == BigEndian(n, 2);
    CrcFieldRoundTrip(Crc(fields));
    assert e[HEADER_SIZE..|e| - 4] == f.payload && e[|e| - 4..] == CrcField(Crc(f.payload));
    CrcFieldRoundTrip(Crc(f.payload));
  }

  /** A written frame is delivered as soon as its last octet is there, and nothing after it is consumed. */
  lemma EncodeScans(f: Frame, t: seq<Byte>, maxPayload: nat)
    requires Encodable(f) && |f.payload| <= maxPayload
    ensures Scan(Encode(f) + t, maxPayload) == Got(f, t)
  {
    hide Crc, ReadCrcField, CrcField, FromBigEndian, BigEndian, HeaderCrcOk, BodyCrcOk;
    var s := Encode(f) + t;
    EncodeIsFrame(f);
    assert s[..HEADER_SIZE] == Encode(f)[..HEADER_SIZE];
    assert s[..|Encode(f)|] == Encode(f) && s[|Encode(f)|..] == t;
  }

  function EncodeAll(fs: seq<Frame>): seq<Byte> {
    if fs == [] then [] else Encode(fs[0]) + EncodeAll(fs[1..])
  }

  lemma {:induction false} WrittenFramesAreRead(fs: seq<Frame>, maxPayload: nat)
    requires forall f :: f in fs ==> Encodable(f) && |f.payload| <= maxPayload
    ensures Frames(EncodeAll(fs), maxPayload) == fs
  {
    hide Encode, Scan;
    if fs == [] {
      ScanNothing(maxPayload);
    } else {
      EncodeScans(fs[0], EncodeAll(fs[1..]), maxPayload);
      WrittenFramesAreRead(fs[1..], maxPayload);
    }
  }

  lemma ScanNothing(maxPayload: nat)
    ensures Scan([], maxPayload) == More([])
  {}

  /** Junk in front of written frames is harmless when a scan of it keeps nothing back. */
  lemma NothingKeptThenFrames(junk: seq<Byte>, fs: seq<Frame>, maxPayload: nat)
    requires Scan(junk, maxPayload) == More([])
    requires forall f :: f in fs ==> Encodable(f) && |f.payload| <= maxPayload
    ensures Frames(junk + EncodeAll(fs), maxPayload) == fs
  {
    hide Encode, Scan;
    ScanExtends(junk, EncodeAll(fs), maxPayload);
    assert [] + EncodeAll(fs) == EncodeAll(fs);
    WrittenFramesAreRead(fs, maxPayload);
  }

  /** The one-octet junk 0x07 does lose the frame behind it: only octets inside that frame are scanned. */
  lemma SyncOctetLosesFrame(f: Frame, t: seq<Byte>, maxPayload: nat)
    ensures Scan([SYNC1] + Encode(f) + t, maxPayload) == Scan(Encode(f)[2..] + t, maxPayload)
  {
    hide Crc, CrcField, BigEndian;
    var s := [SYNC1] + Encode(f) + t;
    assert s[1] == SYNC1 && s[2] == SYNC2;
    assert s[2..] == [SYNC2] + (Encode(f)[2..] + t);
    assert s[2..][1..] == Encode(f)[2..] + t;
  }

  // ---- Delivered frames were on the wire ----

  lemma FrameIsEncoding(s: seq<Byte>)
    requires IsFrame(s) && s[0] == SYNC1 && s[1] == SYNC2
    requires HeaderCrcOk(s[..HEADER_SIZE]) && BodyCrcOk(s)
    ensures Encodable(FrameOf(s)) && Encode(FrameOf(s)) == s
  {
    hide Crc, ReadCrcField, CrcField, FromBigEndian, BigEndian;
    var f, h := FrameOf(s), s[..HEADER_SIZE];
    assert Pow256(2) == 0x1_0000;
    BigEndianCanonical(s[2..4]);
    BigEndianCanonical(s[4..6]);
    BigEndianCanonical(h[6..8]);
    var fields := HeaderFields(f.destination, f.source, |f.payload|);
    assert h[6..8] == s[6..8];
    assert fields == s[..8] == h[..8];
    CrcFieldCanonical(h[8..]);
    CrcFieldCanonical(s[|s| - 4..]);
    assert s == h[..8] + h[8..] + s[HEADER_SIZE..|s| - 4] + s[|s| - 4..];
  }

  lemma {:induction false} GotWasSent(s: seq<Byte>, maxPayload: nat) returns (gap: seq<Byte>)
    requires Scan(s, maxPayload).Got?
    ensures var r := Scan(s, maxPayload);
            s == gap + Encode(r.frame) + r.rest && Encodable(r.frame) && |r.frame.payload| <= maxPayload
    decreases |s|
  {
    hide Crc, ReadCrcField, CrcField, FromBigEndian, BigEndian, HeaderCrcOk, BodyCrcOk, Encode;
    if s[0] != SYNC1 {
      gap := GotWasSent(s[1..], maxPayload);
      gap := s[..1] + gap;
    } else if s[1] != SYNC2 || !HeaderCrcOk(s[..HEADER_SIZE]) {
      gap := GotWasSent(s[2..], maxPayload);
      gap := s[..2] + gap;
    } else if PayloadLength(s[..HEADER_SIZE]) > maxPayload {
      gap := GotWasSent(s[HEADER_SIZE..], maxPayload);
      gap := s[..HEADER_SIZE] + gap;
    } else {
      var n := FrameSize(s[..HEADER_SIZE]);
      assert s[..n][..HEADER_SIZE] == s[..HEADER_SIZE];
      if !BodyCrcOk(s[..n]) {
        gap := GotWasSent(s[n..], maxPayload);
        gap := s[..n] + gap;
      } else {
        FrameIsEncoding(s[..n]);
        gap := [];
        assert s == s[..n] + s[n..];
      }
    }
  }

  /** The octets gaps[0], frame 0, gaps[1], frame 1, ..., last gap. */
  function Weave(gaps: seq<seq<Byte>>, fs: seq<Frame>): seq<Byte>
    requires |gaps| == |fs| + 1
  {
    if fs == [] then gaps[0] else gaps[0] + Encode(fs[0]) + Weave(gaps[1..], fs[1..])
  }

  /** Every delivered frame is on the wire in full, with both CRCs, in order and without overlap. */
  lemma {:induction false} FramesWereSent(s: seq<Byte>, maxPayload: nat) returns (gaps: seq<seq<Byte>>)
    ensures |gaps| == |Frames(s, maxPayload)| + 1
    ensures s == Weave(gaps, Frames(s, maxPayload))
    ensures forall f :: f in Frames(s, maxPayload) ==> Encodable(f) && |f.payload| <= maxPayload
    decreases |s|
  {
    hide Encode, Scan;
    match Scan(s, maxPayload)
    case More(_) =>
      gaps := [s];
    case Got(f, rest) =>
      GotShrinks(s, maxPayload);
      var gap := GotWasSent(s, maxPayload);
      var more := FramesWereSent(rest, maxPayload);
      gaps := [gap] + more;
      assert Frames(s, maxPayload)[1..] == Frames(rest, maxPayload) && gaps[1..] == more;
  }

  // ---- Exactly which junk is harmless ----

  /** The length of the run of 0x07 octets at the end of s. */
  function TrailingSyncs(s: seq<Byte>): nat {
    if s == [] || s[|s| - 1] != SYNC1 then 0 else 1 + TrailingSyncs(s[..|s| - 1])
  }

  predicate NoFrameStart(s: seq<Byte>) {
    forall i :: 0 <= i < |s| - 1 ==> !(s[i] == SYNC1 && s[i + 1] == SYNC2)
  }

  lemma {:induction false} ScanOneMore(s: seq<Byte>, x: Byte, maxPayload: nat)
    requires Scan(s, maxPayload) == More([]) || (Scan(s, maxPayload) == More([SYNC1]) && x != SYNC2)
    ensures Scan(s + [x], maxPayload)
         == if Scan(s, maxPayload) == More([]) && x == SYNC1 then More([SYNC1]) else More([])
  {
    ScanExtends(s, [x], maxPayload);
    assert [] + [x] == [x];
    assert ([SYNC1] + [x])[2..] == [] && [x][1..] == [];
  }

  lemma {:induction false} JunkKeeps(junk: seq<Byte>, maxPayload: nat)
    requires NoFrameStart(junk)
    ensures Scan(junk, maxPayload) == if TrailingSyncs(junk) % 2 == 0 then More([]) else More([SYNC1])
    decreases |junk|
  {
    hide Scan;
    if junk == [] {
      ScanNothing(maxPayload);
    } else {
      var front, x := junk[..|junk| - 1], junk[|junk| - 1];
      JunkKeeps(front, maxPayload);
      assert TrailingSyncs(front) % 2 == 1 ==> junk[|junk| - 2] == SYNC1;
      ScanOneMore(front, x, maxPayload);
      assert junk == front + [x];
    }
  }

  lemma {:induction false} FramesFitIn(gaps: seq<seq<Byte>>, fs: seq<Frame>)
    requires |gaps| == |fs| + 1
    ensures |EncodeAll(fs)| <= |Weave(gaps, fs)|
    decreases |fs|
  {
    hide Encode;
    if fs != [] {
      FramesFitIn(gaps[1..], fs[1..]);
    }
  }

  /** For junk in which no 0xAA directly follows a 0x07, the frames behind it survive exactly when the
      run of 0x07 octets that it ends with has even length. */
  lemma FramesSurviveJunk(junk: seq<Byte>, fs: seq<Frame>, maxPayload: nat)
    requires NoFrameStart(junk)
    requires forall f :: f in fs ==> Encodable(f) && |f.payload| <= maxPayload
    ensures Frames(junk + EncodeAll(fs), maxPayload) == fs <==> fs == [] || TrailingSyncs(junk) % 2 == 0
  {
    hide Encode, Scan;
    JunkKeeps(junk, maxPayload);
    if TrailingSyncs(junk) % 2 == 0 {
      NothingKeptThenFrames(junk, fs, maxPayload);
    } else if fs == [] {
      assert junk + EncodeAll(fs) == junk;
    } else {
      var t, stream := EncodeAll(fs[1..]), junk + EncodeAll(fs);
      var inside := Encode(fs[0])[2..] + t;
      ScanExtends(junk, EncodeAll(fs), maxPayload);
      assert [SYNC1] + EncodeAll(fs) == [SYNC1] + Encode(fs[0]) + t;
      SyncOctetLosesFrame(fs[0], t, maxPayload);
      assert Frames(stream, maxPayload) == Frames(inside, maxPayload);
      var gaps := FramesWereSent(inside, maxPayload);
      FramesFitIn(gaps, Frames(inside, maxPayload));
    }
  }

  /** Octets without any 0x07 in front of written frames change nothing. */
  lemma JunkThenFrames(junk: seq<Byte>, fs: seq<Frame>, maxPayload: nat)
    requires SYNC1 !in junk
    requires forall f :: f in fs ==> Encodable(f) && |f.payload| <= maxPayload
    ensures Frames(junk + EncodeAll(fs), maxPayload) == fs
  {
    hide Encode, Scan;
    assert TrailingSyncs(junk) == 0;
    FramesSurviveJunk(junk, fs, maxPayload);
  }

  /** Both sides of the condition: 0xAA before the last 0x07 does not save a frame, and a 0x07 that
      other octets follow does not lose one. */
  lemma JunkBothWays(f: Frame, maxPayload: nat)
    requires Encodable(f) && |f.payload| <= maxPayload
    ensures Frames([SYNC2, SYNC1] + EncodeAll([f]), maxPayload) != [f]
    ensures Frames([SYNC1, 0x55, SYNC2] + EncodeAll([f]), maxPayload) == [f]
  {
    hide EncodeAll, Frames;
    var lost: seq<Byte>, kept: seq<Byte> := [SYNC2, SYNC1], [SYNC1, 0x55, SYNC2];
    assert lost[..1] == [SYNC2] && TrailingSyncs([SYNC2]) == 0;
    assert TrailingSyncs(lost) == 1 && TrailingSyncs(kept) == 0;
    FramesSurviveJunk(lost, [f], maxPayload);
    FramesSurviveJunk(kept, [f], maxPayload);
  }
}
