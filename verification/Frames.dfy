/** The binary frame of the data plane: a 32-byte header, the shape, the payload. */
module Frames {
  import opened Bytes
  import opened Fields

  const PROTOCOL_VERSION: int := 1
  const MAX_NDIM: int := 8
  const MAX_PAYLOAD: int := 67_108_864
  const HEADER: int := 32

  datatype PacketClass = Control | Activation | KvOp | TokenResult | ModelChunk | Telemetry | Cancel | WorkReceipt
  datatype Dtype = F32 | F16 | BF16 | I32 | U8 | Raw
  datatype Compression = Uncompressed | Zlib

  datatype Frame = Frame(
    packetClass: PacketClass, requestId: int, sessionId: seq<byte>, step: int, microbatch: int,
    tensorId: int, dtype: Dtype, shape: seq<int>, payload: seq<byte>, compression: Compression,
    protocolVersion: int, sidCrc: int)

  datatype Error =
    | PayloadTooLarge | TooManyDims | OutOfRange
    | TooShort | UnsupportedVersion | LengthOverCap | ShapeTruncated | PayloadTruncated
    | CrcMismatch | BadDeflate | InflatedOverCap | UnknownClass | UnknownDtype
    | StreamClosed | FrameTooLong

  datatype Result<+T> = Ok(value: T) | Err(error: Error)

  datatype Inflated = Inflated(data: seq<byte>, unconsumed: bool) | Corrupt

  /** zlib: inflate(s, n) yields at most n bytes and says whether input was left over. */
  datatype Zip = Zip(crc32: seq<byte> -> nat, deflate: seq<byte> -> seq<byte>, inflate: (seq<byte>, nat) -> Inflated)

  /** What zlib promises about one payload. */
  ghost predicate Inflates(zip: Zip, p: seq<byte>) {
    forall n: nat :: zip.inflate(zip.deflate(p), n).Inflated?
      && zip.inflate(zip.deflate(p), n).data == (if |p| <= n then p else p[..n])
      && (|p| < n ==> !zip.inflate(zip.deflate(p), n).unconsumed)
  }

  function ClassCode(c: PacketClass): (n: int)
    ensures 0 <= n < 256
  {
    match c
    case Control => 0 case Activation => 1 case KvOp => 2 case TokenResult => 3
    case ModelChunk => 4 case Telemetry => 5 case Cancel => 6 case WorkReceipt => 7
  }

  function ClassOf(n: int): (c: Option<PacketClass>)
    ensures c.Some? <==> 0 <= n <= 7
    ensures c.Some? ==> ClassCode(c.value) == n
  {
    match n
    case 0 => Some(Control) case 1 => Some(Activation) case 2 => Some(KvOp) case 3 => Some(TokenResult)
    case 4 => Some(ModelChunk) case 5 => Some(Telemetry) case 6 => Some(Cancel) case 7 => Some(WorkReceipt)
    case _ => None
  }

  function DtypeCode(d: Dtype): (n: int)
    ensures 0 <= n < 256
  {
    match d
    case F32 => 0 case F16 => 1 case BF16 => 2 case I32 => 3 case U8 => 4 case Raw => 255
  }

  function DtypeOf(n: int): (d: Option<Dtype>)
    ensures d.Some? <==> 0 <= n <= 4 || n == 255
    ensures d.Some? ==> DtypeCode(d.value) == n
  {
    match n
    case 0 => Some(F32) case 1 => Some(F16) case 2 => Some(BF16) case 3 => Some(I32) case 4 => Some(U8)
    case 255 => Some(Raw)
    case _ => None
  }

  function CompressionCode(c: Compression): int {
    match c case Uncompressed => 0 case Zlib => 1
  }

  /** The bytes that the header's i-th field takes. */
  function Width(i: nat): nat {
    if i < 4 then 1 else if i == 4 then 4 else if i == 5 then 8 else if i == 6 then 4
    else if i < 9 then 2 else if i < 11 then 1 else if i == 11 then 2 else 4
  }

  function Layout(): seq<nat> {
    seq(13, i requires 0 <= i => Width(i))
  }

  function WidthsFrom(k: nat): nat
    requires k <= 13
    decreases 13 - k
  {
    if k == 13 then 0 else Width(k) + WidthsFrom(k + 1)
  }

  lemma {:induction false} LayoutFrom(k: nat)
    requires k <= 13
    ensures Size(Layout()[k..]) == WidthsFrom(k)
    decreases 13 - k
  {
    if k < 13 {
      LayoutFrom(k + 1);
      assert Layout()[k..][1..] == Layout()[k + 1..];
    }
  }

  lemma LayoutSize()
    ensures Size(Layout()) == HEADER
  {
    LayoutFrom(0);
    assert Layout()[0..] == Layout();
  }

  // ---- encode ------------------------------------------------------------------------------------

  /** The payload as it goes on the wire. */
  function Body(zip: Zip, f: Frame): seq<byte> {
    if f.compression == Zlib then zip.deflate(f.payload) else f.payload
  }

  function HeaderOf(zip: Zip, f: Frame): seq<int> {
    var body := Body(zip, f);
    [f.protocolVersion, ClassCode(f.packetClass), DtypeCode(f.dtype), CompressionCode(f.compression),
     zip.crc32(f.sessionId) % 0x1_0000_0000, f.requestId, f.step, f.microbatch, f.tensorId, |f.shape|, 0,
     zip.crc32(body) % 0x1_0000, |body|]
  }

  function Encode(zip: Zip, f: Frame): Result<seq<byte>> {
    var body := Body(zip, f);
    if |body| > MAX_PAYLOAD then Err(PayloadTooLarge)
    else if |f.shape| > MAX_NDIM then Err(TooManyDims)
    else if !InRange(Layout(), HeaderOf(zip, f)) then Err(OutOfRange)
    else if !InRange(Words(|f.shape|), f.shape) then Err(OutOfRange)
    else Ok(Pack(Layout(), HeaderOf(zip, f)) + Pack(Words(|f.shape|), f.shape) + body)
  }

  /** Exactly which frames encode. */
  lemma EncodesIff(zip: Zip, f: Frame)
    ensures Encode(zip, f).Ok? <==>
              && |Body(zip, f)| <= MAX_PAYLOAD && |f.shape| <= MAX_NDIM
              && 0 <= f.protocolVersion < 0x100
              && 0 <= f.requestId < 0x1_0000_0000_0000_0000 && 0 <= f.step < 0x1_0000_0000
              && 0 <= f.microbatch < 0x1_0000 && 0 <= f.tensorId < 0x1_0000
              && forall i :: 0 <= i < |f.shape| ==> 0 <= f.shape[i] < 0x1_0000_0000
  {
    Spans();
    if |Body(zip, f)| <= MAX_PAYLOAD && |f.shape| <= MAX_NDIM {
      HeaderInRangeIff(zip, f);
    }
  }

  lemma HeaderInRangeIff(zip: Zip, f: Frame)
    requires |Body(zip, f)| <= MAX_PAYLOAD && |f.shape| <= MAX_NDIM
    ensures InRange(Layout(), HeaderOf(zip, f)) <==>
              && 0 <= f.protocolVersion < 0x100
              && 0 <= f.requestId < 0x1_0000_0000_0000_0000 && 0 <= f.step < 0x1_0000_0000
              && 0 <= f.microbatch < 0x1_0000 && 0 <= f.tensorId < 0x1_0000
  {
    Spans();
    var h := HeaderOf(zip, f);
    assert forall i :: 0 <= i < 13 ==> Layout()[i] == Width(i);
    if InRange(Layout(), h) {
      assert h[0] < Span(Layout()[0]) && h[5] < Span(Layout()[5]) && h[6] < Span(Layout()[6])
          && h[7] < Span(Layout()[7]) && h[8] < Span(Layout()[8]);
      assert 0 <= h[0] && 0 <= h[5] && 0 <= h[6] && 0 <= h[7] && 0 <= h[8];
    }
  }

  // ---- decode ------------------------------------------------------------------------------------

  function Header(buf: seq<byte>): (h: seq<int>)
    requires |buf| >= HEADER
    ensures |h| == 13 && 0 <= h[9] && 0 <= h[12]
  {
    LayoutSize();
    Unpack(Layout(), buf)
  }

  function Decode(zip: Zip, buf: seq<byte>): Result<Frame> {
    if |buf| < HEADER then Err(TooShort) else
    var h := Header(buf);
    var (ndim, plen) := (h[9], h[12]);
    if h[0] != PROTOCOL_VERSION then Err(UnsupportedVersion)
    else if ndim > MAX_NDIM then Err(TooManyDims)
    else if plen > MAX_PAYLOAD then Err(LengthOverCap)
    else if |buf| < HEADER + 4 * ndim then Err(ShapeTruncated)
    else if |buf| < HEADER + 4 * ndim + plen then Err(PayloadTruncated)
    else
      WordsSize(ndim);
      var shape := Unpack(Words(ndim), buf[HEADER..]);
      var body := buf[HEADER + 4 * ndim..HEADER + 4 * ndim + plen];
      if zip.crc32(body) % 0x1_0000 != h[11] then Err(CrcMismatch)
      else FromParts(h, shape, Unzipped(zip, h[3], body))
  }

  function Unzipped(zip: Zip, compression: int, body: seq<byte>): Result<seq<byte>> {
    if compression != CompressionCode(Zlib) then Ok(body) else
    match zip.inflate(body, MAX_PAYLOAD + 1)
    case Corrupt => Err(BadDeflate)
    case Inflated(data, unconsumed) =>
      if |data| > MAX_PAYLOAD || unconsumed then Err(InflatedOverCap) else Ok(data)
  }

  function FromParts(h: seq<int>, shape: seq<int>, payload: Result<seq<byte>>): Result<Frame>
    requires |h| == 13
  {
    if payload.Err? then Err(payload.error)
    else if ClassOf(h[1]).None? then Err(UnknownClass)
    else if DtypeOf(h[2]).None? then Err(UnknownDtype)
    else Ok(Frame(ClassOf(h[1]).value, h[5], [], h[6], h[7], h[8], DtypeOf(h[2]).value, shape,
                  payload.value, Uncompressed, h[0], h[4]))
  }

  // ---- round trips -------------------------------------------------------------------------------

  /** A frame as it arrives: the session survives as its CRC only, and nothing is compressed. */
  function Received(zip: Zip, f: Frame): Frame {
    f.(sessionId := [], compression := Uncompressed, sidCrc := zip.crc32(f.sessionId) % 0x1_0000_0000)
  }

  lemma CodesInvert(f: Frame)
    ensures ClassOf(ClassCode(f.packetClass)) == Some(f.packetClass)
    ensures DtypeOf(DtypeCode(f.dtype)) == Some(f.dtype)
  {
  }

  lemma EncodedSize(zip: Zip, f: Frame)
    requires Encode(zip, f).Ok?
    ensures |Encode(zip, f).value| == HEADER + 4 * |f.shape| + |Body(zip, f)|
  {
    LayoutSize();
    WordsSize(|f.shape|);
  }

  /** The three parts of an encoded frame, read back. */
  lemma EncodedParts(zip: Zip, f: Frame)
    requires Encode(zip, f).Ok?
    ensures var buf := Encode(zip, f).value;
            && |buf| == HEADER + 4 * |f.shape| + |Body(zip, f)|
            && Header(buf) == HeaderOf(zip, f)
            && Size(Words(|f.shape|)) == 4 * |f.shape|
            && Unpack(Words(|f.shape|), buf[HEADER..]) == f.shape
            && buf[HEADER + 4 * |f.shape|..] == Body(zip, f)
  {
    EncodedSize(zip, f);
    LayoutSize();
    WordsSize(|f.shape|);
    var head, shape, body := Pack(Layout(), HeaderOf(zip, f)), Pack(Words(|f.shape|), f.shape), Body(zip, f);
    var buf := Encode(zip, f).value;
    assert buf == head + (shape + body);
    UnpackPack(Layout(), HeaderOf(zip, f), shape + body);
    UnpackPack(Words(|f.shape|), f.shape, body);
    assert buf[HEADER..] == shape + body;
    assert buf[HEADER + 4 * |f.shape|..] == body;
  }

  lemma DecodeOfParts(zip: Zip, buf: seq<byte>, h: seq<int>, shape: seq<int>, body: seq<byte>)
    requires |buf| >= HEADER && Header(buf) == h && |h| == 13 && h[0] == PROTOCOL_VERSION
    requires h[9] == |shape| <= MAX_NDIM && h[12] == |body| <= MAX_PAYLOAD
    requires |buf| == HEADER + 4 * |shape| + |body| && buf[HEADER + 4 * |shape|..] == body
    requires Size(Words(|shape|)) == 4 * |shape| && Unpack(Words(|shape|), buf[HEADER..]) == shape
    requires h[11] == zip.crc32(body) % 0x1_0000
    ensures Decode(zip, buf) == FromParts(h, shape, Unzipped(zip, h[3], body))
  {
    var at := HEADER + 4 * |shape|;
    assert at + |body| == |buf|;
    assert buf[at..|buf|] == buf[at..];
  }

  lemma DecodeEncoded(zip: Zip, f: Frame)
    requires Encode(zip, f).Ok?
    ensures Decode(zip, Encode(zip, f).value)
         == (if f.protocolVersion != PROTOCOL_VERSION then Err(UnsupportedVersion)
             else FromParts(HeaderOf(zip, f), f.shape, Unzipped(zip, CompressionCode(f.compression), Body(zip, f))))
  {
    EncodedParts(zip, f);
    if f.protocolVersion == PROTOCOL_VERSION {
      DecodeOfParts(zip, Encode(zip, f).value, HeaderOf(zip, f), f.shape, Body(zip, f));
    }
  }

  lemma UnzippedBody(zip: Zip, f: Frame)
    requires f.compression == Zlib ==> Inflates(zip, f.payload)
    requires |Body(zip, f)| <= MAX_PAYLOAD
    ensures var r := Unzipped(zip, CompressionCode(f.compression), Body(zip, f));
            r == (if |f.payload| <= MAX_PAYLOAD then Ok(f.payload) else Err(InflatedOverCap))
  {
    if f.compression == Zlib {
      var n: nat := MAX_PAYLOAD + 1;
      assert zip.inflate(zip.deflate(f.payload), n).Inflated?;
    }
  }

  /** Decoding an encoded frame: it is the frame received, unless its version is another one or its
      payload is over the cap before compression. Encode only looks at the compressed length. */
  lemma FrameRoundTrip(zip: Zip, f: Frame)
    requires Encode(zip, f).Ok?
    requires f.compression == Zlib ==> Inflates(zip, f.payload)
    ensures Decode(zip, Encode(zip, f).value)
         == (if f.protocolVersion != PROTOCOL_VERSION then Err(UnsupportedVersion)
             else if |f.payload| > MAX_PAYLOAD then Err(InflatedOverCap)
             else Ok(Received(zip, f)))
  {
    DecodeEncoded(zip, f);
    UnzippedBody(zip, f);
    if f.protocolVersion == PROTOCOL_VERSION && |f.payload| <= MAX_PAYLOAD {
      ReceivedParts(zip, f);
    }
  }

  lemma ReceivedParts(zip: Zip, f: Frame)
    requires f.protocolVersion == PROTOCOL_VERSION
    ensures FromParts(HeaderOf(zip, f), f.shape, Ok(f.payload)) == Ok(Received(zip, f))
  {
    CodesInvert(f);
  }

  /** A frame that encodes and still cannot be decoded: exactly one of another version, or a
      compressed one whose payload is over the cap. */
  lemma UndecodableIff(zip: Zip, f: Frame)
    requires Encode(zip, f).Ok?
    requires f.compression == Zlib ==> Inflates(zip, f.payload)
    ensures Decode(zip, Encode(zip, f).value).Err? <==>
              || f.protocolVersion != PROTOCOL_VERSION
              || (f.compression == Zlib && |f.payload| > MAX_PAYLOAD)
  {
    FrameRoundTrip(zip, f);
  }

  /** Compression hides the length from encode: a payload over the cap that deflates to one under it
      gives a frame that encodes and does not decode. */
  lemma OverCapStillEncodes(zip: Zip, payload: seq<byte>)
    requires |payload| > MAX_PAYLOAD && |zip.deflate(payload)| <= MAX_PAYLOAD && Inflates(zip, payload)
    ensures var f := Frame(Control, 0, [], 0, 0, 0, Raw, [], payload, Zlib, PROTOCOL_VERSION, 0);
            Encode(zip, f).Ok? && Decode(zip, Encode(zip, f).value) == Err(InflatedOverCap)
  {
    var f := Frame(Control, 0, [], 0, 0, 0, Raw, [], payload, Zlib, PROTOCOL_VERSION, 0);
    EncodesIff(zip, f);
    FrameRoundTrip(zip, f);
  }

  /** What an uncompressed buffer that decodes says about the frame. */
  ghost predicate ReadFrom(zip: Zip, buf: seq<byte>, f: Frame)
    requires |buf| >= HEADER
  {
    var h := Header(buf);
    var end := HEADER + 4 * h[9];
    && h[9] <= MAX_NDIM && h[12] <= MAX_PAYLOAD && end + h[12] <= |buf|
    && Size(Words(h[9])) == 4 * h[9]
    && f.shape == Unpack(Words(h[9]), buf[HEADER..])
    && f.payload == buf[end..end + h[12]]
    && h[11] == zip.crc32(f.payload) % 0x1_0000
    && f == Frame(f.packetClass, h[5], [], h[6], h[7], h[8], f.dtype, f.shape, f.payload, Uncompressed, h[0], h[4])
    && ClassCode(f.packetClass) == h[1] && DtypeCode(f.dtype) == h[2]
  }

  lemma DecodedFields(zip: Zip, buf: seq<byte>)
    requires Decode(zip, buf).Ok? && Header(buf)[3] == 0
    ensures ReadFrom(zip, buf, Decode(zip, buf).value)
  {
    WordsSize(Header(buf)[9]);
  }

  lemma HeaderAgain(zip: Zip, h: seq<int>, f: Frame)
    requires |h| == 13 && h[3] == 0 && h[10] == 0
    requires f.compression == Uncompressed && zip.crc32(f.sessionId) % 0x1_0000_0000 == h[4]
    requires h[0] == f.protocolVersion && h[1] == ClassCode(f.packetClass) && h[2] == DtypeCode(f.dtype)
    requires h[5] == f.requestId && h[6] == f.step && h[7] == f.microbatch && h[8] == f.tensorId
    requires h[9] == |f.shape| && h[11] == zip.crc32(f.payload) % 0x1_0000 && h[12] == |f.payload|
    ensures HeaderOf(zip, f) == h
  {
  }

  lemma HeaderPacksBack(buf: seq<byte>)
    requires |buf| >= HEADER
    ensures InRange(Layout(), Header(buf)) && Pack(Layout(), Header(buf)) == buf[..HEADER]
  {
    LayoutSize();
    PackUnpack(Layout(), buf);
  }

  lemma ShapePacksBack(s: seq<byte>, n: nat)
    requires 4 * n <= |s|
    ensures Size(Words(n)) == 4 * n && InRange(Words(n), Unpack(Words(n), s))
    ensures Pack(Words(n), Unpack(Words(n), s)) == s[..4 * n]
  {
    WordsSize(n);
    PackUnpack(Words(n), s);
  }

  lemma ThreeParts(buf: seq<byte>, a: int, b: int, c: int)
    requires 0 <= a && 0 <= b && 0 <= c && a + b + c <= |buf|
    ensures buf[..a] + buf[a..][..b] + buf[a + b..a + b + c] <= buf
  {
    assert buf[a..][..b] == buf[a..a + b];
    assert buf[..a + b + c] == buf[..a] + buf[a..a + b] + buf[a + b..a + b + c];
  }

  lemma EncodeOfParts(zip: Zip, f: Frame, h: seq<int>, buf: seq<byte>)
    requires HeaderOf(zip, f) == h && f.compression == Uncompressed
    requires |f.payload| <= MAX_PAYLOAD && |f.shape| <= MAX_NDIM
    requires HEADER + 4 * |f.shape| + |f.payload| <= |buf|
    requires InRange(Layout(), h) && Pack(Layout(), h) == buf[..HEADER]
    requires InRange(Words(|f.shape|), f.shape)
    requires Pack(Words(|f.shape|), f.shape) == buf[HEADER..][..4 * |f.shape|]
    requires f.payload == buf[HEADER + 4 * |f.shape|..HEADER + 4 * |f.shape| + |f.payload|]
    ensures Encode(zip, f).Ok? && Encode(zip, f).value <= buf
  {
    ThreeParts(buf, HEADER, 4 * |f.shape|, |f.payload|);
  }

  lemma ReadEncodes(zip: Zip, buf: seq<byte>, read: Frame, sessionId: seq<byte>)
    requires |buf| >= HEADER && ReadFrom(zip, buf, read) && Header(buf)[3] == 0 && Header(buf)[10] == 0
    requires zip.crc32(sessionId) % 0x1_0000_0000 == Header(buf)[4]
    ensures var f := read.(sessionId := sessionId); Encode(zip, f).Ok? && Encode(zip, f).value <= buf
  {
    var h, f := Header(buf), read.(sessionId := sessionId);
    HeaderPacksBack(buf);
    ShapePacksBack(buf[HEADER..], h[9]);
    HeaderAgain(zip, h, f);
    EncodeOfParts(zip, f, h, buf);
  }

  /** Nothing else decodes: a buffer that does, uncompressed and with its reserved byte zero, starts
      with the encoding of what came out of it. */
  lemma DecodedEncodes(zip: Zip, buf: seq<byte>, sessionId: seq<byte>)
    requires Decode(zip, buf).Ok? && Header(buf)[3] == 0 && Header(buf)[10] == 0
    requires zip.crc32(sessionId) % 0x1_0000_0000 == Header(buf)[4]
    ensures var f := Decode(zip, buf).value.(sessionId := sessionId);
            Encode(zip, f).Ok? && Encode(zip, f).value <= buf
  {
    DecodedFields(zip, buf);
    ReadEncodes(zip, buf, Decode(zip, buf).value, sessionId);
  }

  // ---- the layout of the header ------------------------------------------------------------------

  datatype Field =
    | Version | Class | DataType | Packing | SessionCrc | RequestId | Step | Microbatch | TensorId
    | Dimensions | Reserved | PayloadCrc | PayloadLength

  /** The table of the header: number, first byte and width of each field. */
  function Place(x: Field): (nat, nat, nat) {
    match x
    case Version => (0, 0, 1)
    case Class => (1, 1, 1)
    case DataType => (2, 2, 1)
    case Packing => (3, 3, 1)
    case SessionCrc => (4, 4, 4)
    case RequestId => (5, 8, 8)
    case Step => (6, 16, 4)
    case Microbatch => (7, 20, 2)
    case TensorId => (8, 22, 2)
    case Dimensions => (9, 24, 1)
    case Reserved => (10, 25, 1)
    case PayloadCrc => (11, 26, 2)
    case PayloadLength => (12, 28, 4)
  }

  function FieldValue(zip: Zip, f: Frame, x: Field): int {
    match x
    case Version => f.protocolVersion
    case Class => ClassCode(f.packetClass)
    case DataType => DtypeCode(f.dtype)
    case Packing => if f.compression == Zlib then 1 else 0
    case SessionCrc => zip.crc32(f.sessionId) % 0x1_0000_0000
    case RequestId => f.requestId
    case Step => f.step
    case Microbatch => f.microbatch
    case TensorId => f.tensorId
    case Dimensions => |f.shape|
    case Reserved => 0
    case PayloadCrc => zip.crc32(if f.compression == Zlib then zip.deflate(f.payload) else f.payload) % 0x1_0000
    case PayloadLength => |if f.compression == Zlib then zip.deflate(f.payload) else f.payload|
  }

  lemma {:induction false} LayoutStarts(k: nat)
    requires k < 13
    ensures Size(Layout()[..k])
         == if k <= 4 then k else if k == 5 then 8 else if k == 6 then 16 else if k == 7 then 20 else if k == 8 then 22
            else if k <= 10 then 15 + k else if k == 11 then 26 else 28
  {
    if k > 0 {
      LayoutStarts(k - 1);
      SizeUpTo(Layout(), k - 1);
    } else {
      assert Layout()[..0] == [];
    }
  }

  lemma PlaceIs(x: Field)
    ensures var (k, at, width) := Place(x);
            k < 13 && Size(Layout()[..k]) == at && Layout()[k] == width
  {
    LayoutStarts(Place(x).0);
  }

  lemma ValueIs(zip: Zip, f: Frame, x: Field)
    ensures Place(x).0 < 13 && HeaderOf(zip, f)[Place(x).0] == FieldValue(zip, f, x)
  {
    match x {
      case Version => case Class => case DataType => case Packing => case SessionCrc => case RequestId =>
      case Step => case Microbatch => case TensorId => case Dimensions => case Reserved => case PayloadCrc =>
      case PayloadLength =>
    }
  }

  lemma HeaderFieldAt(zip: Zip, f: Frame, k: nat)
    requires Encode(zip, f).Ok? && k < 13
    ensures var at := Size(Layout()[..k]);
            && at + Layout()[k] <= |Encode(zip, f).value|
            && FromBE(Encode(zip, f).value[at..at + Layout()[k]]) == HeaderOf(zip, f)[k]
  {
    ThreeAsTwo(Pack(Layout(), HeaderOf(zip, f)), Pack(Words(|f.shape|), f.shape), Body(zip, f));
    FieldAt(Layout(), HeaderOf(zip, f), Pack(Words(|f.shape|), f.shape) + Body(zip, f), k);
  }

  lemma ThreeAsTwo(a: seq<byte>, b: seq<byte>, c: seq<byte>)
    ensures a + b + c == a + (b + c)
  {
  }

  /** Each field of an encoded frame stands where the table says, most significant byte first. */
  lemma HeaderLayout(zip: Zip, f: Frame, x: Field)
    requires Encode(zip, f).Ok?
    ensures var (_, at, width) := Place(x);
            && at + width <= |Encode(zip, f).value|
            && FromBE(Encode(zip, f).value[at..at + width]) == FieldValue(zip, f, x)
  {
    PlaceIs(x);
    ValueIs(zip, f, x);
    HeaderFieldAt(zip, f, Place(x).0);
  }

  lemma WordAt(shape: seq<int>, behind: seq<byte>, i: nat)
    requires InRange(Words(|shape|), shape) && i < |shape|
    ensures var s := Pack(Words(|shape|), shape) + behind;
            4 * i + 4 <= |s| && FromBE(s[4 * i..4 * i + 4]) == shape[i]
  {
    FieldAt(Words(|shape|), shape, behind, i);
    WordsSize(i);
    assert Words(|shape|)[..i] == Words(i);
  }

  lemma BehindHeader(zip: Zip, f: Frame)
    requires Encode(zip, f).Ok?
    ensures |Encode(zip, f).value| >= 32
    ensures Encode(zip, f).value[32..] == Pack(Words(|f.shape|), f.shape) + Body(zip, f)
  {
    LayoutSize();
    var head, behind := Pack(Layout(), HeaderOf(zip, f)), Pack(Words(|f.shape|), f.shape) + Body(zip, f);
    assert Encode(zip, f).value == head + behind;
  }

  lemma WordBehind(buf: seq<byte>, s: seq<byte>, i: nat)
    requires |buf| >= 32 && buf[32..] == s && 4 * i + 4 <= |s|
    ensures 32 + 4 * i + 4 <= |buf| && buf[32 + 4 * i..32 + 4 * i + 4] == s[4 * i..4 * i + 4]
  {
  }

  /** The shape follows in four bytes for each dimension. */
  lemma ShapeLayout(zip: Zip, f: Frame, i: nat)
    requires Encode(zip, f).Ok? && i < |f.shape|
    ensures 32 + 4 * i + 4 <= |Encode(zip, f).value|
    ensures FromBE(Encode(zip, f).value[32 + 4 * i..32 + 4 * i + 4]) == f.shape[i]
  {
    BehindHeader(zip, f);
    WordAt(f.shape, Body(zip, f), i);
    WordBehind(Encode(zip, f).value, Pack(Words(|f.shape|), f.shape) + Body(zip, f), i);
  }

  /** And then the payload, compressed or not. */
  lemma PayloadLayout(zip: Zip, f: Frame)
    requires Encode(zip, f).Ok?
    ensures 32 + 4 * |f.shape| <= |Encode(zip, f).value|
    ensures Encode(zip, f).value[32 + 4 * |f.shape|..]
         == if f.compression == Zlib then zip.deflate(f.payload) else f.payload
  {
    EncodedParts(zip, f);
  }

  /** The codes of classes and element types on the wire. */
  lemma CodesAre()
    ensures ClassCode(Control) == 0 && ClassCode(Activation) == 1 && ClassCode(KvOp) == 2 && ClassCode(TokenResult) == 3
    ensures ClassCode(ModelChunk) == 4 && ClassCode(Telemetry) == 5 && ClassCode(Cancel) == 6
    ensures ClassCode(WorkReceipt) == 7
    ensures DtypeCode(F32) == 0 && DtypeCode(F16) == 1 && DtypeCode(BF16) == 2 && DtypeCode(I32) == 3
    ensures DtypeCode(U8) == 4 && DtypeCode(Raw) == 255
  {
  }
}
