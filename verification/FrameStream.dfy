/** Frames on a byte stream: a four-byte length before each one. */
module FrameStream {
  import opened Bytes
  import opened Frames
  import opened Streams

  const PREFIX: int := 4
  const MAX_FRAME_ON_WIRE: int := MAX_PAYLOAD + 4096

  /** What the writer puts on the stream for a frame that encodes. */
  function Framed(data: seq<byte>): seq<byte>
    requires |data| < Span(4)
  {
    ToBE(4, |data|) + data
  }

  /** One read: its outcome and what is left in the stream. A short read empties the buffer. */
  function ReadOne(zip: Zip, s: seq<byte>): (Result<Frame>, seq<byte>) {
    if |s| < PREFIX then (Err(StreamClosed), []) else
    var length := FromBE(s[..PREFIX]);
    var rest := s[PREFIX..];
    if length > MAX_FRAME_ON_WIRE then (Err(FrameTooLong), rest)
    else if |rest| < length then (Err(StreamClosed), [])
    else (Decode(zip, rest[..length]), rest[length..])
  }

  /** The stream of one direction of a connection, as its writer and its reader see it. */
  class Connection {
    const zip: Zip
    var pending: seq<byte>

    constructor (zip: Zip)
      ensures this.zip == zip && pending == []
    {
      this.zip, pending := zip, [];
    }

    method WriteFrame(f: Frame) returns (r: Result<()>)
      modifies this
      ensures match Encode(zip, f)
              case Err(e) => r == Err(e) && pending == old(pending)
              case Ok(data) => r == Ok(()) && |data| < Span(4) && pending == old(pending) + Framed(data)
    {
      var encoded := Encode(zip, f);
      if encoded.Err? {
        return Err(encoded.error);
      }
      EncodedFits(zip, f);
      pending := pending + (ToBE(4, |encoded.value|) + encoded.value);
      r := Ok(());
    }

    method ReadExactly(n: nat) returns (data: Option<seq<byte>>)
      modifies this
      ensures data.Some? <==> n <= |old(pending)|
      ensures data.Some? ==> data.value == old(pending)[..n] && pending == old(pending)[n..]
      ensures data.None? ==> pending == []
    {
      if |pending| < n {
        pending := [];
        return None;
      }
      data := Some(pending[..n]);
      pending := pending[n..];
    }

    method ReadFrame() returns (r: Result<Frame>)
      modifies this
      ensures (r, pending) == ReadOne(zip, old(pending))
    {
      var header := ReadExactly(PREFIX);
      if header.None? {
        return Err(StreamClosed);
      }
      var length := FromBE(header.value);
      if length > MAX_FRAME_ON_WIRE {
        return Err(FrameTooLong);
      }
      var body := ReadExactly(length);
      if body.None? {
        return Err(StreamClosed);
      }
      r := Decode(zip, body.value);
    }
  }

  /** The reader's bound never refuses a frame that encodes, and the length fits its prefix. */
  lemma EncodedFits(zip: Zip, f: Frame)
    requires Encode(zip, f).Ok?
    ensures |Encode(zip, f).value| <= HEADER + 4 * MAX_NDIM + MAX_PAYLOAD <= MAX_FRAME_ON_WIRE
    ensures |Encode(zip, f).value| < Span(4)
  {
    EncodedSize(zip, f);
    Spans();
  }

  /** A frame that encodes and will be understood. */
  ghost predicate Sendable(zip: Zip, f: Frame) {
    && Encode(zip, f).Ok?
    && f.protocolVersion == PROTOCOL_VERSION
    && |f.payload| <= MAX_PAYLOAD
    && (f.compression == Zlib ==> Inflates(zip, f.payload))
  }

  ghost function Wire(zip: Zip, f: Frame): (s: seq<byte>)
    requires Sendable(zip, f)
    ensures |s| >= PREFIX
  {
    EncodedFits(zip, f);
    Framed(Encode(zip, f).value)
  }

  /** A frame as a message: it is written as Wire says and should be read as Received says. */
  ghost function AsMessage(zip: Zip, f: Frame): Message<Result<Frame>>
    requires Sendable(zip, f)
  {
    Message(Wire(zip, f), Ok(Received(zip, f)))
  }

  ghost function Sent(zip: Zip, frames: seq<Frame>): (r: seq<Message<Result<Frame>>>)
    requires forall i :: 0 <= i < |frames| ==> Sendable(zip, frames[i])
    ensures |r| == |frames|
    ensures forall i :: 0 <= i < |frames| ==> r[i] == AsMessage(zip, frames[i])
  {
    seq(|frames|, i requires 0 <= i < |frames| => AsMessage(zip, frames[i]))
  }

  lemma FramedParts(data: seq<byte>, tail: seq<byte>)
    requires |data| < Span(4)
    ensures var s := Framed(data) + tail;
            && |s| == PREFIX + |data| + |tail|
            && FromBE(s[..PREFIX]) == |data|
            && s[PREFIX..][..|data|] == data
            && s[PREFIX..][|data|..] == tail
  {
    var s := Framed(data) + tail;
    FromToBE(4, |data|);
    assert s[..PREFIX] == ToBE(4, |data|);
    assert s[PREFIX..] == data + tail;
  }

  lemma ReadFramed(zip: Zip, f: Frame, tail: seq<byte>)
    requires Sendable(zip, f)
    ensures ReadOne(zip, Wire(zip, f) + tail) == (Ok(Received(zip, f)), tail)
  {
    EncodedFits(zip, f);
    FramedParts(Encode(zip, f).value, tail);
    FrameRoundTrip(zip, f);
  }

  lemma ReadCut(zip: Zip, f: Frame, n: nat)
    requires Sendable(zip, f) && n < |Wire(zip, f)|
    ensures ReadOne(zip, Wire(zip, f)[..n]) == (Err(StreamClosed), [])
  {
    EncodedFits(zip, f);
    if n >= PREFIX {
      FramedParts(Encode(zip, f).value, []);
      assert Wire(zip, f) + [] == Wire(zip, f);
      assert Wire(zip, f)[..n][..PREFIX] == Wire(zip, f)[..PREFIX];
    }
  }

  lemma FrameDelimits(zip: Zip, f: Frame)
    requires Sendable(zip, f)
    ensures Delimits(s => ReadOne(zip, s), Message(Wire(zip, f), Ok(Received(zip, f))), Err(StreamClosed))
  {
    forall tail: seq<byte> ensures ReadOne(zip, Wire(zip, f) + tail) == (Ok(Received(zip, f)), tail) {
      ReadFramed(zip, f, tail);
    }
    forall n: nat | n < |Wire(zip, f)| ensures ReadOne(zip, Wire(zip, f)[..n]).0 == Err(StreamClosed) {
      ReadCut(zip, f, n);
    }
  }

  /** A connection that breaks after any number of bytes: the reader gets exactly the frames that were
      sent whole, in order and unchanged, and then the end of the stream; never a damaged frame. */
  lemma CutStream(zip: Zip, frames: seq<Frame>, n: nat)
    requires forall i :: 0 <= i < |frames| ==> Sendable(zip, frames[i])
    requires n <= |Joined(Sent(zip, frames))|
    ensures var sent := Sent(zip, frames);
            Yields(s => ReadOne(zip, s), Joined(sent)[..n], Outcomes(sent[..Whole(sent, n)]), Err(StreamClosed))
  {
    var sent := Sent(zip, frames);
    forall i | 0 <= i < |sent| ensures Delimits(s => ReadOne(zip, s), sent[i], Err(StreamClosed)) {
      FrameDelimits(zip, frames[i]);
    }
    CutYields(s => ReadOne(zip, s), sent, Err(StreamClosed), n);
  }

  /** A stream that closes after the last frame is read back frame by frame. */
  lemma StreamRoundTrip(zip: Zip, frames: seq<Frame>)
    requires forall i :: 0 <= i < |frames| ==> Sendable(zip, frames[i])
    ensures var sent := Sent(zip, frames);
            Yields(s => ReadOne(zip, s), Joined(sent), Outcomes(sent), Err(StreamClosed))
  {
    var sent := Sent(zip, frames);
    var s := Joined(sent);
    WholeStream(sent);
    CutStream(zip, frames, |s|);
    assert s[..|s|] == s && sent[..|sent|] == sent;
  }

  /** A length over the bound is refused before anything behind it is read. */
  lemma TooLongIsRefused(zip: Zip, length: nat, behind: seq<byte>)
    requires 67_112_960 < length < Span(4)
    ensures ReadOne(zip, ToBE(4, length) + behind) == (Err(FrameTooLong), behind)
  {
    var s := ToBE(4, length) + behind;
    FromToBE(4, length);
    assert s[..PREFIX] == ToBE(4, length) && s[PREFIX..] == behind;
  }
}
