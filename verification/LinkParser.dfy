/** The incremental link parser: an automaton over one fixed buffer, fed slices of an input array.
    On a bad header it re-parses a slice of the very buffer it is writing into. */
module LinkParsing {
  import opened Bytes
  import opened Crc32
  import opened LinkFrames

  datatype State = WaitSync1 | WaitSync2 | WaitHeader | WaitBody | WaitRead

  /** A configured payload limit is capped by the link-layer maximum. */
  function Cap(maxPayloadLength: nat): nat {
    if maxPayloadLength <= MAX_CONFIG_PAYLOAD_SIZE then maxPayloadLength else MAX_CONFIG_PAYLOAD_SIZE
  }

  class LinkParser {
    const maxPayload: nat
    const buffer: array<Byte>

    var state: State
    var numBuffered: nat

    // the fields of the last complete header
    var destination: nat
    var source: nat
    var payloadLength: nat

    /** Octets taken from the input and not yet decided upon. */
    ghost function Pending(): seq<Byte>
      reads this, buffer
      requires numBuffered <= buffer.Length
    {
      buffer[..numBuffered]
    }

    /** p starts with an accepted header, and the header fields are those it announces. */
    ghost predicate HeaderDone(p: seq<Byte>)
      reads this
    {
      && |p| >= HEADER_SIZE && p[0] == SYNC1 && p[1] == SYNC2
      && HeaderCrcOk(p[..HEADER_SIZE])
      && destination == FromBigEndian(p[2..4])
      && source == FromBigEndian(p[4..6])
      && payloadLength == PayloadLength(p[..HEADER_SIZE]) <= maxPayload
    }

    ghost predicate Consistent(p: seq<Byte>)
      reads this
    {
      match state
      case WaitSync1 => p == []
      case WaitSync2 => p == [SYNC1]
      case WaitHeader => 2 <= |p| < HEADER_SIZE && p[0] == SYNC1 && p[1] == SYNC2
      case WaitBody => HeaderDone(p) && |p| < MIN_FRAME_SIZE + payloadLength
      case WaitRead => HeaderDone(p) && IsFrame(p) && BodyCrcOk(p)
    }

    ghost predicate Valid()
      reads this, buffer
    {
      && maxPayload <= MAX_CONFIG_PAYLOAD_SIZE
      && MIN_FRAME_SIZE + maxPayload <= buffer.Length
      && numBuffered <= buffer.Length
      && Consistent(Pending())
    }

    constructor (maxPayloadLength: nat)
      requires maxPayloadLength < 0x1_0000
      ensures Valid() && fresh(buffer)
      ensures state == WaitSync1 && Pending() == []
      ensures maxPayload == Cap(maxPayloadLength)
    {
      maxPayload := Cap(maxPayloadLength);
      buffer := new Byte[MIN_FRAME_SIZE + maxPayloadLength](i => 0);
      state, numBuffered := WaitSync1, 0;
      destination, source, payloadLength := 0, 0, 0;
    }

    method Reset()
      requires Valid()
      modifies this
      ensures Valid() && state == WaitSync1 && Pending() == []
    {
      state, numBuffered := WaitSync1, 0;
    }

    /** A slice that the parser may read while it writes its buffer: either another array, or octets
        of the buffer itself that lie at least two places ahead of the next write and are too few to
        complete a header. */
    ghost predicate Readable(src: array<Byte>, lo: nat, hi: nat)
      reads this
    {
      && lo <= hi <= src.Length
      && (src == buffer ==> numBuffered + 2 <= lo && hi - lo + numBuffered < HEADER_SIZE && !state.WaitBody? && !state.WaitRead?)
    }

    /** Consume input until it is exhausted or a frame is complete. `depth` bounds the nesting of
        re-parses: a re-parse never starts another. */
    method ParseMany(src: array<Byte>, lo: nat, hi: nat, ghost depth: nat) returns (pos: nat)
      requires Valid() && Readable(src, lo, hi) && depth == (if src == buffer then 0 else 1)
      modifies this, buffer
      ensures Valid() && lo <= pos <= hi && Readable(src, pos, hi)
      ensures state.WaitRead? || pos == hi
      ensures lo < hi && !old(state.WaitRead?) ==> lo < pos
      ensures src[pos..hi] == old(src[pos..hi])
      ensures Scan(Pending() + src[pos..hi], maxPayload) == old(Scan(Pending() + src[lo..hi], maxPayload))
      decreases depth, 3
    {
      hide Scan, HeaderCrcOk, BodyCrcOk, PayloadLength, FromBigEndian;
      pos := lo;
      while pos < hi && !state.WaitRead?
        invariant Valid() && lo <= pos <= hi && Readable(src, pos, hi)
        invariant lo < pos || state == old(state)
        invariant src[pos..hi] == old(src[pos..hi])
        invariant Scan(Pending() + src[pos..hi], maxPayload) == old(Scan(Pending() + src[lo..hi], maxPayload))
        decreases hi - pos
      {
        pos := ParseOne(src, pos, hi, depth);
      }
    }

    method ParseOne(src: array<Byte>, lo: nat, hi: nat, ghost depth: nat) returns (pos: nat)
      requires Valid() && Readable(src, lo, hi) && lo < hi && !state.WaitRead? && depth == (if src == buffer then 0 else 1)
      modifies this, buffer
      ensures Valid() && lo < pos <= hi && Readable(src, pos, hi)
      ensures src[pos..hi] == old(src[pos..hi])
      ensures Scan(Pending() + src[pos..hi], maxPayload) == old(Scan(Pending() + src[lo..hi], maxPayload))
      decreases depth, 2
    {
      hide Scan, HeaderCrcOk, BodyCrcOk, PayloadLength, FromBigEndian;
      match state
      case WaitSync1 => pos := ParseSync1(src, lo, hi);
      case WaitSync2 => pos := ParseSync2(src, lo, hi);
      case WaitHeader => pos := ParseHeader(src, lo, hi, depth);
      case WaitBody => pos := ParseBody(src, lo, hi);
    }

    /** Find the next octet that can start a frame. */
    method SkipToSync(src: array<Byte>, lo: nat, hi: nat) returns (pos: nat)
      requires lo <= hi <= src.Length
      ensures lo <= pos <= hi && (pos < hi ==> src[pos] == SYNC1)
      ensures Scan(src[pos..hi], maxPayload) == Scan(src[lo..hi], maxPayload)
    {
      hide Scan;
      pos := lo;
      while pos < hi
        invariant lo <= pos <= hi
        invariant Scan(src[pos..hi], maxPayload) == Scan(src[lo..hi], maxPayload)
      {
        if src[pos] == SYNC1 {
          break;
        }
        ScanSkips(src[pos..hi], maxPayload);
        assert src[pos..hi][1..] == src[pos + 1..hi];
        pos := pos + 1;
      }
    }

    method ParseSync1(src: array<Byte>, lo: nat, hi: nat) returns (pos: nat)
      requires Valid() && Readable(src, lo, hi) && lo < hi && state.WaitSync1?
      modifies this, buffer
      ensures Valid() && lo < pos <= hi && Readable(src, pos, hi)
      ensures src[pos..hi] == old(src[pos..hi])
      ensures Scan(Pending() + src[pos..hi], maxPayload) == old(Scan(Pending() + src[lo..hi], maxPayload))
    {
      hide Scan, HeaderCrcOk, BodyCrcOk, PayloadLength, FromBigEndian;
      assert Pending() + src[lo..hi] == src[lo..hi];
      pos := SkipToSync(src, lo, hi);
      if pos < hi {
        ghost var rest := src[pos + 1..hi];
        assert src[pos..hi] == [SYNC1] + rest;
        buffer[0] := src[pos];
        state, numBuffered := WaitSync2, 1;
        pos := pos + 1;
        assert src[pos..hi] == rest && Pending() == [SYNC1];
      } else {
        assert Pending() + src[pos..hi] == src[pos..hi];
      }
    }

    method ParseSync2(src: array<Byte>, lo: nat, hi: nat) returns (pos: nat)
      requires Valid() && Readable(src, lo, hi) && lo < hi && state.WaitSync2?
      modifies this, buffer
      ensures Valid() && lo < pos <= hi && Readable(src, pos, hi)
      ensures src[pos..hi] == old(src[pos..hi])
      ensures Scan(Pending() + src[pos..hi], maxPayload) == old(Scan(Pending() + src[lo..hi], maxPayload))
    {
      hide Scan, HeaderCrcOk, BodyCrcOk, PayloadLength, FromBigEndian;
      var value := src[lo];
      pos := lo + 1;
      ghost var s, rest := Pending() + src[lo..hi], src[pos..hi];
      assert s == [SYNC1, value] + rest && s[2..] == rest;
      if value == SYNC2 {
        buffer[1] := value;
        state, numBuffered := WaitHeader, 2;
        assert src[pos..hi] == rest && Pending() == [SYNC1, SYNC2];
      } else {
        ScanBadSync(s, maxPayload);
        state, numBuffered := WaitSync1, 0;
        assert Pending() + rest == rest;
      }
    }

    /** Move octets of the slice into the buffer until it holds `limit` octets or the slice ends.
        Source and destination may overlap: all octets are read before any is written. */
    method TransferData(src: array<Byte>, lo: nat, hi: nat, limit: nat) returns (pos: nat)
      requires numBuffered < limit <= buffer.Length && lo < hi <= src.Length
      requires src == buffer ==> numBuffered + 2 <= lo
      modifies buffer
      ensures lo < pos <= hi && numBuffered + (pos - lo) <= limit
      ensures pos == hi || numBuffered + (pos - lo) == limit
      ensures src[pos..hi] == old(src[pos..hi])
      ensures buffer[..numBuffered + (pos - lo)] == old(Pending() + src[lo..pos])
      ensures src == buffer ==> numBuffered + (pos - lo) + 2 <= pos
    {
      hide HeaderCrcOk, BodyCrcOk, PayloadLength, FromBigEndian;
      var n := if limit - numBuffered <= hi - lo then limit - numBuffered else hi - lo;
      pos := lo + n;
      ghost var input, before := src[lo..hi], Pending();
      assert src[lo..pos] == input[..n] && src[pos..hi] == input[n..];
      forall k | 0 <= k < n {
        buffer[numBuffered + k] := src[lo + k];
      }
      assert forall k :: 0 <= k < n ==> buffer[numBuffered + k] == input[k];
      assert buffer[..numBuffered + n] == before + input[..n];
      assert forall k :: pos <= k < hi ==> src[k] == input[k - lo];
      assert src[pos..hi] == input[n..];
    }

    method ParseHeader(src: array<Byte>, lo: nat, hi: nat, ghost depth: nat) returns (pos: nat)
      requires Valid() && Readable(src, lo, hi) && lo < hi && state.WaitHeader? && depth == (if src == buffer then 0 else 1)
      modifies this, buffer
      ensures Valid() && lo < pos <= hi && Readable(src, pos, hi)
      ensures src[pos..hi] == old(src[pos..hi])
      ensures Scan(Pending() + src[pos..hi], maxPayload) == old(Scan(Pending() + src[lo..hi], maxPayload))
      decreases depth, 1
    {
      hide Scan, Crc, ReadCrcField, FromBigEndian;
      ghost var s := Pending() + src[lo..hi];
      pos := TransferData(src, lo, hi, HEADER_SIZE);
      numBuffered := numBuffered + (pos - lo);
      ghost var h, rest := Pending(), src[pos..hi];
      assert h + rest == s;
      assert h[0] == s[0] && h[1] == s[1];
      if numBuffered == HEADER_SIZE {
        CheckHeader(rest, depth);
      }
    }

    /** Twelve octets are buffered: accept them as a header, or give them up. `rest` is the input
        that has not been read yet. */
    method CheckHeader(ghost rest: seq<Byte>, ghost depth: nat)
      requires numBuffered == HEADER_SIZE && state.WaitHeader? && depth == 1
      requires maxPayload <= MAX_CONFIG_PAYLOAD_SIZE && MIN_FRAME_SIZE + maxPayload <= buffer.Length
      requires buffer[0] == SYNC1 && buffer[1] == SYNC2
      modifies this, buffer
      ensures Valid() && !state.WaitRead?
      ensures Scan(Pending() + rest, maxPayload) == old(Scan(Pending() + rest, maxPayload))
      decreases depth, 0
    {
      hide Scan, Crc, ReadCrcField, FromBigEndian;
      ghost var h, s := Pending(), Pending() + rest;
      destination := FromBigEndian(buffer[2..4]);
      source := FromBigEndian(buffer[4..6]);
      payloadLength := PayloadLength(buffer[..HEADER_SIZE]);
      var actual := ReadCrcField(buffer[8..12]);
      var expected := Calc(buffer[..8]);
      assert h[..8] == buffer[..8] && h[8..] == buffer[8..12] && h[2..4] == buffer[2..4] && h[4..6] == buffer[4..6];
      assert s[..HEADER_SIZE] == h == h[..HEADER_SIZE];

      if expected != actual {
        // re-parse everything after the synchronisation octets, in place
        ScanBadHeader(s, maxPayload);
        ghost var header := buffer[2..12];
        assert s[2..] == header + rest;
        state, numBuffered := WaitSync1, 0;
        assert Pending() + header == header;
        var end := ParseMany(buffer, 2, 12, depth - 1);
        assert Pending() + buffer[end..12] == Pending();
        PendingIsKept();
        ScanExtends(header, rest, maxPayload);
      } else if payloadLength > maxPayload {
        ScanOversized(s, maxPayload);
        state, numBuffered := WaitSync1, 0;
        assert Pending() + rest == s[HEADER_SIZE..];
      } else {
        state := WaitBody;
      }
    }

    method ParseBody(src: array<Byte>, lo: nat, hi: nat) returns (pos: nat)
      requires Valid() && Readable(src, lo, hi) && lo < hi && state.WaitBody?
      modifies this, buffer
      ensures Valid() && lo < pos <= hi && Readable(src, pos, hi)
      ensures src[pos..hi] == old(src[pos..hi])
      ensures Scan(Pending() + src[pos..hi], maxPayload) == old(Scan(Pending() + src[lo..hi], maxPayload))
    {
      hide Scan, Crc, ReadCrcField, FromBigEndian, PayloadLength, HeaderCrcOk;
      ghost var before, s := Pending(), Pending() + src[lo..hi];
      var total := HEADER_SIZE + payloadLength + 4;
      pos := TransferData(src, lo, hi, total);
      numBuffered := numBuffered + (pos - lo);
      ghost var p, rest := Pending(), src[pos..hi];
      assert p + rest == s;
      HeaderKept(before, p);
      if numBuffered == total {
        CheckBody(rest);
      }
    }

    /** A whole frame is buffered: keep it for reading, or give it up. */
    method CheckBody(ghost rest: seq<Byte>)
      requires numBuffered == HEADER_SIZE + payloadLength + 4 <= buffer.Length && state.WaitBody?
      requires maxPayload <= MAX_CONFIG_PAYLOAD_SIZE && MIN_FRAME_SIZE + maxPayload <= buffer.Length
      requires HeaderDone(Pending())
      modifies `state, `numBuffered
      ensures Valid()
      ensures Scan(Pending() + rest, maxPayload) == old(Scan(Pending() + rest, maxPayload))
    {
      hide Scan, Crc, ReadCrcField, FromBigEndian, PayloadLength, HeaderCrcOk;
      var total := numBuffered;
      ghost var p, s := Pending(), Pending() + rest;
      assert s[..total] == p && s[total..] == rest && s[..HEADER_SIZE] == p[..HEADER_SIZE];
      var payload := buffer[HEADER_SIZE..HEADER_SIZE + payloadLength];
      var expected := Calc(payload);
      var actual := ReadCrcField(buffer[HEADER_SIZE + payloadLength..total]);
      assert p[HEADER_SIZE..total - 4] == payload;
      assert p[total - 4..] == buffer[total - 4..total];
      ScanWhole(s, total, maxPayload);
      if expected != actual {
        state, numBuffered := WaitSync1, 0;
        assert Pending() + rest == rest;
        return;
      }

      state := WaitRead;
    }

    lemma HeaderKept(before: seq<Byte>, p: seq<Byte>)
      requires HeaderDone(before) && before <= p
      ensures HeaderDone(p) && p[..HEADER_SIZE] == before[..HEADER_SIZE]
    {
      assert p[..HEADER_SIZE] == before[..HEADER_SIZE] && p[2..4] == before[2..4] && p[4..6] == before[4..6];
    }

    lemma PendingIsKept()
      requires Valid() && !state.WaitRead?
      ensures Scan(Pending(), maxPayload) == More(Pending())
    {
      hide Crc, ReadCrcField, FromBigEndian;
    }

    lemma ReadIsGot(t: seq<Byte>)
      requires Valid() && state.WaitRead?
      ensures Scan(Pending() + t, maxPayload) == Got(FrameOf(Pending()), t)
    {
      hide Scan, Crc, ReadCrcField, FromBigEndian;
      var s, p := Pending() + t, Pending();
      assert s[..HEADER_SIZE] == p[..HEADER_SIZE] && s[..|p|] == p && s[|p|..] == t;
      ScanWhole(s, |p|, maxPayload);
    }

    /** Feed one slice. What comes out is what the pure scan of everything buffered so far, followed
        by the slice, finds first; the rest of the slice is left unread. */
    method Parse(src: array<Byte>, lo: nat, hi: nat) returns (pos: nat, done: bool)
      requires Valid() && src != buffer && lo <= hi <= src.Length
      modifies this, buffer
      ensures Valid() && lo <= pos <= hi && done == state.WaitRead?
      ensures lo < hi && !old(state.WaitRead?) ==> lo < pos
      ensures match old(Scan(Pending() + src[lo..hi], maxPayload))
              case More(pending) => !done && pos == hi && Pending() == pending
              case Got(frame, rest) => done && FrameOf(Pending()) == frame && src[pos..hi] == rest
    {
      hide Scan, HeaderCrcOk, BodyCrcOk, PayloadLength, FromBigEndian;
      pos := ParseMany(src, lo, hi, 1);
      done := state.WaitRead?;
      if done {
        ReadIsGot(src[pos..hi]);
      } else {
        PendingIsKept();
        assert Pending() + src[pos..hi] == Pending();
      }
    }

    method Read() returns (frame: Option<Frame>)
      requires Valid()
      ensures frame == if state.WaitRead? then Some(FrameOf(Pending())) else None
    {
      hide HeaderCrcOk, BodyCrcOk, FromBigEndian;
      if !state.WaitRead? {
        return None;
      }
      assert Pending()[HEADER_SIZE..numBuffered - 4] == buffer[HEADER_SIZE..HEADER_SIZE + payloadLength];
      frame := Some(Frame(destination, source, buffer[HEADER_SIZE..HEADER_SIZE + payloadLength]));
    }
  }

  function Flatten(chunks: seq<seq<Byte>>): seq<Byte> {
    if chunks == [] then [] else chunks[0] + Flatten(chunks[1..])
  }

  /** What a stream that goes on with later yields, by what its first part yields. */
  lemma {:induction false} FramesExtend(before: seq<Byte>, input: seq<Byte>, later: seq<Byte>, max: nat)
    ensures var r := Scan(before + input, max);
            Frames(before + (input + later), max) ==
              if r.More? then Frames(r.pending + later, max) else [r.frame] + Frames(r.rest + later, max)
  {
    hide Scan;
    ScanExtends(before + input, later, max);
    assert before + input + later == before + (input + later);
  }

  /** Feed one chunk to the end, reading and resetting after every frame. */
  method ParseChunk(parser: LinkParser, chunk: seq<Byte>, ghost later: seq<Byte>) returns (frames: seq<Frame>)
    requires parser.Valid() && !parser.state.WaitRead?
    modifies parser, parser.buffer
    ensures parser.Valid() && !parser.state.WaitRead?
    ensures old(Frames(parser.Pending() + (chunk + later), parser.maxPayload))
         == frames + Frames(parser.Pending() + later, parser.maxPayload)
  {
    hide Scan, Frames, HeaderCrcOk, BodyCrcOk, PayloadLength, FromBigEndian;
    var max := parser.maxPayload;
    var src := new Byte[|chunk|](i requires 0 <= i < |chunk| => chunk[i]);
    assert src[..] == chunk;
    frames := [];
    var pos := 0;
    assert src[pos..] == chunk;
    while pos < |chunk|
      invariant pos <= |chunk| && fresh(src) && src[..] == chunk
      invariant parser.Valid() && !parser.state.WaitRead?
      invariant old(Frames(parser.Pending() + (chunk + later), max)) == frames + Frames(parser.Pending() + (chunk[pos..] + later), max)
      decreases |chunk| - pos
    {
      ghost var before, input := parser.Pending(), chunk[pos..];
      assert input == src[pos..|chunk|];
      parser.PendingIsKept();
      FramesExtend(before, input, later, max);
      var done;
      pos, done := parser.Parse(src, pos, |chunk|);
      assert src[pos..|chunk|] == chunk[pos..];
      if done {
        ghost var rest := chunk[pos..];
        var result := parser.Read();
        frames := frames + [result.value];
        parser.Reset();
        assert parser.Pending() + (rest + later) == rest + later;
      } else {
        assert parser.Pending() + later == parser.Pending() + (chunk[pos..] + later);
      }
    }
    assert chunk[pos..] + later == later;
  }

  /** However a stream is cut into chunks, the parser delivers exactly the frames of the whole stream. */
  method ParseChunks(maxPayloadLength: nat, chunks: seq<seq<Byte>>) returns (frames: seq<Frame>)
    requires maxPayloadLength < 0x1_0000
    ensures frames == Frames(Flatten(chunks), Cap(maxPayloadLength))
  {
    hide Scan, HeaderCrcOk, BodyCrcOk, PayloadLength, FromBigEndian;
    var parser := new LinkParser(maxPayloadLength);
    ghost var max := Cap(maxPayloadLength);
    frames := [];
    var i := 0;
    assert parser.Pending() + Flatten(chunks) == Flatten(chunks[0..]);
    while i < |chunks|
      invariant 0 <= i <= |chunks| && fresh(parser) && fresh(parser.buffer)
      invariant parser.Valid() && !parser.state.WaitRead?
      invariant parser.maxPayload == max
      invariant Frames(Flatten(chunks), max) == frames + Frames(parser.Pending() + Flatten(chunks[i..]), max)
    {
      assert chunks[i..][1..] == chunks[i + 1..];
      var more := ParseChunk(parser, chunks[i], Flatten(chunks[i + 1..]));
      frames := frames + more;
      i := i + 1;
    }
    parser.PendingIsKept();
    assert parser.Pending() + Flatten(chunks[i..]) == parser.Pending();
  }
}
