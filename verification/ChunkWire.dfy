/** The payloads of the chunk loop: a request is an 8-byte offset, a reply is the offset, the chunk
    id in 64 characters and the bytes. */
module ChunkWire {
  import opened Bytes
  import opened Content
  import opened Frames
  import opened FrameStream

  const CHUNK_HEADER := 72

  /** What the leecher makes of the next frame: the stream's end (or a timeout), a frame of another
      class or too short, or a reply. */
  datatype Reply = Gone | Unusable | Reply(offset: nat, id: HexDigest, data: seq<byte>)

  /** What the seeder makes of the next frame. */
  datatype Request = Closed | Malformed | Request(offset: nat)

  function ChunkFrame(requestId: int, payload: seq<byte>): Frame {
    Frame(ModelChunk, requestId, [], 0, 0, 0, Raw, [], payload, Uncompressed, PROTOCOL_VERSION, 0)
  }

  function PrintRequest(requestId: int, offset: nat): Frame
    requires FitsOffset(offset)
  {
    ChunkFrame(requestId, ToBE(8, offset))
  }

  function ParseRequest(f: Frame): Request {
    if f.packetClass != ModelChunk || |f.payload| < 8 then Malformed else Request(FromBE(f.payload[..8]))
  }

  function PrintReply(requestId: int, r: Reply): Frame
    requires r.Reply? && FitsOffset(r.offset)
  {
    ChunkFrame(requestId, ToBE(8, r.offset) + r.id + r.data)
  }

  function ParseReply(f: Frame): Reply {
    if f.packetClass != ModelChunk || |f.payload| < CHUNK_HEADER then Unusable
    else Reply(FromBE(f.payload[..8]), f.payload[8..CHUNK_HEADER], f.payload[CHUNK_HEADER..])
  }

  lemma ChunkFrameEncodes(zip: Zip, requestId: int, payload: seq<byte>)
    requires 0 <= requestId < Span(8)
    ensures Encode(zip, ChunkFrame(requestId, payload)).Ok? <==> |payload| <= MAX_PAYLOAD
    ensures |payload| <= MAX_PAYLOAD ==> Sendable(zip, ChunkFrame(requestId, payload))
  {
    Spans();
    EncodesIff(zip, ChunkFrame(requestId, payload));
  }

  /** A request over the stream is the request that was sent. */
  lemma RequestRoundTrip(zip: Zip, requestId: int, offset: nat)
    requires FitsOffset(offset) && 0 <= requestId < Span(8)
    ensures Sendable(zip, PrintRequest(requestId, offset))
    ensures ParseRequest(Received(zip, PrintRequest(requestId, offset))) == Request(offset)
  {
    var s := ToBE(8, offset);
    ChunkFrameEncodes(zip, requestId, s);
    FromToBE(8, offset);
    assert s[..8] == s;
  }

  /** The data leave room for the 72 bytes of header under the payload cap. */
  predicate FitsReply(length: nat) {
    length <= MAX_PAYLOAD - CHUNK_HEADER
  }

  /** So is a reply; one is sent exactly when its data fit. */
  lemma ReplyRoundTrip(zip: Zip, requestId: int, r: Reply)
    requires r.Reply? && FitsOffset(r.offset) && 0 <= requestId < Span(8)
    ensures Encode(zip, PrintReply(requestId, r)).Ok? <==> FitsReply(|r.data|)
    ensures FitsReply(|r.data|) ==> Sendable(zip, PrintReply(requestId, r))
    ensures ParseReply(Received(zip, PrintReply(requestId, r))) == r
  {
    var s := ToBE(8, r.offset) + r.id + r.data;
    ChunkFrameEncodes(zip, requestId, s);
    FromToBE(8, r.offset);
    assert s[..8] == ToBE(8, r.offset);
    assert s[8..CHUNK_HEADER] == r.id;
    assert s[CHUNK_HEADER..] == r.data;
  }

  /** Nothing in a usable reply is lost, byte for byte: its payload is the print of what was parsed. */
  lemma ParsedReplyPrints(f: Frame)
    requires ParseReply(f).Reply?
    ensures FitsOffset(ParseReply(f).offset) && PrintReply(f.requestId, ParseReply(f)).payload == f.payload
  {
    ToFromBE(f.payload[..8]);
    assert f.payload == f.payload[..8] + f.payload[8..CHUNK_HEADER] + f.payload[CHUNK_HEADER..];
  }

  /** Where the fields of a reply stand: eight bytes of offset, 64 of id, and the data. */
  lemma ReplyLayout(requestId: int, r: Reply)
    requires r.Reply? && FitsOffset(r.offset)
    ensures var f := PrintReply(requestId, r);
            && f.packetClass == ModelChunk && f.requestId == requestId && |f.payload| == 72 + |r.data|
            && FromBE(f.payload[..8]) == r.offset && f.payload[8..72] == r.id && f.payload[72..] == r.data
    ensures |PrintRequest(requestId, r.offset).payload| == 8
    ensures FromBE(PrintRequest(requestId, r.offset).payload) == r.offset
  {
    FromToBE(8, r.offset);
    var s := ToBE(8, r.offset) + r.id + r.data;
    assert s[..8] == ToBE(8, r.offset) && s[8..72] == r.id && s[72..] == r.data;
  }

  /** Frames of another class, or too short for the fields, are no requests and no replies. */
  lemma ParsesIff(f: Frame)
    ensures ParseRequest(f) == Malformed <==> f.packetClass != ModelChunk || |f.payload| < 8
    ensures ParseReply(f) == Unusable <==> f.packetClass != ModelChunk || |f.payload| < 72
  {
  }
}
