/** The link frame writer: body first, header second, into one buffer that is lent to the lower layer. */
module LinkWriting {
  import opened Bytes
  import opened Crc32
  import opened LinkFrames

  class LinkFrameWriter {
    const destination: nat
    const source: nat
    const maxPayloadSize: nat
    const frameBuffer: array<Byte>

    ghost predicate Valid() {
      && destination < 0x1_0000 && source < 0x1_0000 && maxPayloadSize < 0x1_0000
      && frameBuffer.Length == MIN_FRAME_SIZE + maxPayloadSize
    }

    constructor (destination: nat, source: nat, maxPayloadSize: nat)
      requires destination < 0x1_0000 && source < 0x1_0000 && maxPayloadSize < 0x1_0000
      ensures Valid() && fresh(frameBuffer)
      ensures this.destination == destination && this.source == source && this.maxPayloadSize == maxPayloadSize
    {
      this.destination, this.source, this.maxPayloadSize := destination, source, maxPayloadSize;
      frameBuffer := new Byte[MIN_FRAME_SIZE + maxPayloadSize](i => 0);
    }

    /** Copy data to the slice of the buffer that starts at `at`, or as much as fits of it. */
    method Put(at: nat, data: seq<Byte>) returns (end: nat, ok: bool)
      requires at <= frameBuffer.Length
      modifies frameBuffer
      ensures ok <==> at + |data| <= frameBuffer.Length
      ensures ok ==> end == at + |data| && frameBuffer[at..end] == data
      ensures frameBuffer[..at] == old(frameBuffer[..at])
      ensures ok ==> frameBuffer[end..] == old(frameBuffer[end..])
    {
      ok := at + |data| <= frameBuffer.Length;
      var n := if ok then |data| else frameBuffer.Length - at;
      end := at + n;
      forall k | 0 <= k < n {
        frameBuffer[at + k] := data[k];
      }
    }

    /** Frame a message. It succeeds exactly for payloads within the configured size, and what it
        leaves in the buffer is the encoding of that payload under this writer's addresses. */
    method Write(payload: seq<Byte>) returns (frame: Option<seq<Byte>>)
      requires Valid()
      modifies frameBuffer
      ensures frame.Some? <==> |payload| <= maxPayloadSize
      ensures frame.Some? ==>
                && Encodable(Frame(destination, source, payload))
                && frame.value == Encode(Frame(destination, source, payload))
                && frameBuffer[..|frame.value|] == frame.value
    {
      hide Crc, CrcField, BigEndian;
      var end, ok := Put(HEADER_SIZE, payload);
      if !ok {
        return None;
      }
      var crcBody := Calc(payload);
      var total;
      total, ok := Put(end, CrcField(crcBody));
      if !ok {
        return None;
      }
      ghost var body := frameBuffer[HEADER_SIZE..total];
      assert body == payload + CrcField(Crc(payload)) by {
        assert frameBuffer[HEADER_SIZE..end] == frameBuffer[..end][HEADER_SIZE..] == payload;
      }

      var fields := HeaderFields(destination, source, |payload|);
      var crcStart, headerEnd;
      crcStart, ok := Put(0, fields);
      assert frameBuffer[..crcStart] == fields;
      var crcHeader := Calc(frameBuffer[..HEADER_FIELDS_SIZE]);
      headerEnd, ok := Put(crcStart, CrcField(crcHeader));
      assert frameBuffer[..HEADER_SIZE] == frameBuffer[..crcStart] + frameBuffer[crcStart..headerEnd];
      assert frameBuffer[HEADER_SIZE..total] == frameBuffer[HEADER_SIZE..][..total - HEADER_SIZE] == body;
      assert frameBuffer[..total] == frameBuffer[..HEADER_SIZE] + frameBuffer[HEADER_SIZE..total];
      frame := Some(frameBuffer[..total]);
    }
  }
}
