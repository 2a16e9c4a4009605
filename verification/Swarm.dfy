/** Single-file transfer over one stream: a seeder that answers chunk requests, and a leecher that
    verifies every chunk before it is written and resumes from what is already on disk. */
module Swarm {
  import opened Bytes
  import opened Content
  import opened ChunkWire

  /** The pinned BLAKE3 of the whole file, or a manifest that has none yet. */
  datatype RootHash = Pending | Pinned(digest: HexDigest)

  datatype Shard = Shard(
    manifest: seq<byte>, rfilename: seq<byte>, sizeBytes: nat, rootHash: RootHash, chunkBytes: nat)

  const OFFSET_LIMIT := 0x1_0000_0000_0000_0000

  /** What the source divides by, and what its 8-byte offsets can address. */
  ghost predicate Transferable(s: Shard) {
    s.chunkBytes > 0 && s.sizeBytes <= OFFSET_LIMIT
  }

  /** The id of a chunk of this file, by its offset and bytes, and the hash of a whole file. */
  datatype Digests = Digests(chunkId: (nat, seq<byte>) -> HexDigest, fileHash: seq<byte> -> HexDigest)

  /** Both as the source computes them, from one hash function. */
  function DigestsOf(h: HexHash, s: Shard): Digests {
    Digests((offset: nat, chunk: seq<byte>) =>
              if FitsOffset(offset) then ChunkId(h, s.manifest, s.rfilename, offset, chunk) else h([]), h)
  }

  function NumChunks(sizeBytes: int, chunkBytes: int): int
    requires chunkBytes > 0
  {
    if sizeBytes != 0 then -((-sizeBytes) / chunkBytes) else 0
  }

  /** Where chunk idx begins, counted up chunk by chunk. */
  function Offset(s: Shard, idx: nat): nat {
    if idx == 0 then 0 else Offset(s, idx - 1) + s.chunkBytes
  }

  lemma {:induction false} OffsetIsProduct(s: Shard, idx: nat)
    ensures Offset(s, idx) == idx * s.chunkBytes
  {
    if idx > 0 {
      OffsetIsProduct(s, idx - 1);
      assert idx * s.chunkBytes == (idx - 1) * s.chunkBytes + s.chunkBytes;
    }
  }

  function Length(s: Shard, offset: nat): nat
    requires offset <= s.sizeBytes
  {
    if s.chunkBytes < s.sizeBytes - offset then s.chunkBytes else s.sizeBytes - offset
  }

  function Min(a: nat, b: nat): nat {
    if a < b then a else b
  }

  // ---- seeder ----------------------------------------------------------------------------------

  /** What a request makes the seeder do: answer it, stop serving, or fail to send the answer, because
      its data do not fit a frame. */
  datatype Answer = Sends(reply: Reply) | Stops | CannotSend

  /** The answer to a request, read from the seeder's file. */
  function SeedReply(d: Digests, s: Shard, file: seq<byte>, req: Request): (r: Answer)
    requires s.chunkBytes > 0
    ensures r.Sends? ==> r.reply.Reply? && FitsReply(|r.reply.data|)
  {
    if !req.Request? || req.offset >= s.sizeBytes || req.offset % s.chunkBytes != 0 then Stops
    else
      var o := req.offset;
      var data := file[Min(o, |file|)..Min(o + Length(s, o), |file|)];
      if FitsReply(|data|) then Sends(Reply(o, d.chunkId(o, data), data)) else CannotSend
  }

  /** `raised`: an answer could not be sent, and the exception ended the loop. */
  datatype Served = Served(bytes: nat, replies: seq<Reply>, raised: bool)

  function Seed(d: Digests, s: Shard, file: seq<byte>, requests: seq<Request>): Served
    requires s.chunkBytes > 0
  {
    if requests == [] then Served(0, [], false)
    else
      match SeedReply(d, s, file, requests[0])
      case Stops => Served(0, [], false)
      case CannotSend => Served(0, [], true)
      case Sends(reply) =>
        var rest := Seed(d, s, file, requests[1..]);
        Served(|reply.data| + rest.bytes, [reply] + rest.replies, rest.raised)
  }

  /** seed_file: serves until the peer closes the stream, is silent, or asks for something wrong. */
  method SeedFile(d: Digests, s: Shard, file: seq<byte>, requests: seq<Request>)
    returns (served: nat, sent: seq<Reply>, raised: bool)
    requires Transferable(s)
    ensures Seed(d, s, file, requests) == Served(served, sent, raised)
  {
    served, sent, raised := 0, [], false;
    var i := 0;
    assert requests[0..] == requests;
    while i < |requests|
      invariant 0 <= i <= |requests| && !raised
      invariant Seed(d, s, file, requests).bytes == served + Seed(d, s, file, requests[i..]).bytes
      invariant Seed(d, s, file, requests).replies == sent + Seed(d, s, file, requests[i..]).replies
      invariant Seed(d, s, file, requests).raised == Seed(d, s, file, requests[i..]).raised
    {
      assert requests[i..][1..] == requests[i + 1..];
      var answer := SeedReply(d, s, file, requests[i]);
      match answer {
        case Stops => return;
        case CannotSend => return served, sent, true;
        case Sends(reply) =>
          sent := sent + [reply];
          served := served + |reply.data|;
          i := i + 1;
      }
    }
  }

  // ---- leecher ---------------------------------------------------------------------------------

  /** The other side of the stream: its answer to the n-th request, which asks for `offset`. Any
      peer, honest or not, is such a function for the run it takes part in. */
  type Peer = (nat, nat) -> Reply

  datatype Attempted = Fetched(id: HexDigest, data: seq<byte>) | Unverified | PeerGone

  datatype Outcome = Complete(digest: HexDigest) | PeerLacksFile | ChunkVerifyError | WrongRootHash | StreamEnded

  /** The partial file, the progress in memory, the progress last saved, and the offsets requested. */
  datatype Transfer = Transfer(
    data: seq<byte>, progress: map<nat, HexDigest>, saved: map<nat, HexDigest>, requests: seq<nat>)

  predicate AcceptsReply(d: Digests, s: Shard, offset: nat, reply: Reply)
    requires offset <= s.sizeBytes
  {
    && reply.Reply? && reply.offset == offset && |reply.data| == Length(s, offset)
    && d.chunkId(offset, reply.data) == reply.id
  }

  /** Up to `tries` requests for one chunk. */
  function Attempts(d: Digests, s: Shard, peer: Peer, offset: nat, tries: nat, requests: seq<nat>)
    : (r: (Attempted, seq<nat>))
    requires offset <= s.sizeBytes
    ensures r.0.Fetched? ==> |r.0.data| == Length(s, offset)
    ensures r.0.Fetched? ==> d.chunkId(offset, r.0.data) == r.0.id
  {
    if tries == 0 then (Unverified, requests)
    else
      var reply := peer(|requests| + 1, offset);
      if reply.Gone? then (PeerGone, requests + [offset])
      else if AcceptsReply(d, s, offset, reply) then
        (Fetched(reply.id, reply.data), requests + [offset])
      else Attempts(d, s, peer, offset, tries - 1, requests + [offset])
  }

  function Chunk(s: Shard, data: seq<byte>, offset: nat): seq<byte>
    requires offset <= s.sizeBytes == |data|
  {
    data[offset..offset + Length(s, offset)]
  }

  /** The chunk is recorded, and its bytes on disk still have the recorded id. */
  predicate Intact(d: Digests, s: Shard, data: seq<byte>, progress: map<nat, HexDigest>, offset: nat)
    requires offset < s.sizeBytes == |data| <= OFFSET_LIMIT
  {
    offset in progress
    && d.chunkId(offset, Chunk(s, data, offset)) == progress[offset]
  }

  function Write(s: Shard, data: seq<byte>, offset: nat, chunk: seq<byte>): (r: seq<byte>)
    requires offset <= s.sizeBytes == |data| && |chunk| == Length(s, offset)
    ensures |r| == |data|
  {
    data[..offset] + chunk + data[offset + |chunk|..]
  }

  /** One pass of the chunk loop; the outcome is given where the loop is left by an exception. */
  function Step(d: Digests, s: Shard, peer: Peer, tries: nat, offset: nat, t: Transfer)
    : (r: (Option<Outcome>, Transfer))
    requires offset < s.sizeBytes == |t.data| <= OFFSET_LIMIT
    ensures |r.1.data| == |t.data|
    ensures r.0.Some? ==> r.0.value == ChunkVerifyError || r.0.value == StreamEnded
  {
    if Intact(d, s, t.data, t.progress, offset) then (None, t)
    else
      var progress := t.progress - {offset};
      var (result, requests) := Attempts(d, s, peer, offset, tries, t.requests);
      match result
      case Unverified => (Some(ChunkVerifyError), Transfer(t.data, progress, t.saved, requests))
      case PeerGone => (Some(StreamEnded), Transfer(t.data, progress, t.saved, requests))
      case Fetched(id, data) =>
        var recorded := progress[offset := id];
        (None, Transfer(Write(s, t.data, offset, data), recorded, recorded, requests))
  }

  /** The chunk loop from chunk idx on. */
  function Loop(d: Digests, s: Shard, peer: Peer, tries: nat, idx: nat, t: Transfer)
    : (r: (Option<Outcome>, Transfer))
    requires s.chunkBytes > 0 && s.sizeBytes == |t.data| <= OFFSET_LIMIT
    ensures |r.1.data| == |t.data|
    ensures r.0.Some? ==> r.0.value == ChunkVerifyError || r.0.value == StreamEnded
    decreases s.sizeBytes - Offset(s, idx)
  {
    if Offset(s, idx) >= s.sizeBytes then (None, t)
    else
      var (stop, after) := Step(d, s, peer, tries, Offset(s, idx), t);
      assert Offset(s, idx + 1) == Offset(s, idx) + s.chunkBytes;
      if stop.Some? then (stop, after) else Loop(d, s, peer, tries, idx + 1, after)
  }

  /** A file of the wrong size is started over as zeros, and nothing recorded counts. */
  function Begin(s: Shard, file: Option<seq<byte>>, sidecar: map<nat, HexDigest>): (t: Transfer)
    ensures |t.data| == s.sizeBytes
  {
    if file.Some? && |file.value| == s.sizeBytes then Transfer(file.value, sidecar, sidecar, [])
    else Transfer(seq(s.sizeBytes, _ => 0), map[], sidecar, [])
  }

  function Conclude(d: Digests, s: Shard, r: (Option<Outcome>, Transfer)): Outcome {
    if r.0.Some? then r.0.value
    else
      var digest := d.fileHash(r.1.data);
      if s.rootHash.Pinned? && digest != s.rootHash.digest then WrongRootHash else Complete(digest)
  }

  /** The peer has the file, answers anything else, or does not answer in time. */
  datatype Handshake = Have | Nack | Silent

  /** The partial file and its sidecar, as one node keeps them. */
  class Leecher {
    const digests: Digests
    const shard: Shard
    var file: array?<byte>
    var sidecar: map<nat, HexDigest>

    constructor (digests: Digests, shard: Shard)
      ensures this.digests == digests && this.shard == shard && file == null && sidecar == map[]
    {
      this.digests, this.shard, file, sidecar := digests, shard, null, map[];
    }

    ghost function Contents(): Option<seq<byte>>
      reads this, file
    {
      if file == null then None else Some(file[..])
    }

    method RequestChunk(peer: Peer, offset: nat, tries: nat, requests: seq<nat>)
      returns (result: Attempted, after: seq<nat>)
      requires offset <= shard.sizeBytes
      ensures (result, after) == Attempts(digests, shard, peer, offset, tries, requests)
    {
      after := requests;
      var left: nat := tries;
      while left > 0
        invariant Attempts(digests, shard, peer, offset, tries, requests)
               == Attempts(digests, shard, peer, offset, left, after)
      {
        var reply := peer(|after| + 1, offset);
        after := after + [offset];
        if reply.Gone? {
          return PeerGone, after;
        }
        if AcceptsReply(digests, shard, offset, reply) {
          return Fetched(reply.id, reply.data), after;
        }
        left := left - 1;
      }
      result := Unverified;
    }

    /** seek + write of one verified chunk. */
    method WriteChunk(offset: nat, data: seq<byte>)
      requires file != null && offset <= shard.sizeBytes == file.Length && |data| == Length(shard, offset)
      modifies file
      ensures file[..] == Write(shard, old(file[..]), offset, data)
    {
      forall i | 0 <= i < |data| {
        file[offset + i] := data[i];
      }
    }

    /** One pass of the chunk loop: an intact chunk is kept, any other is requested, verified,
        written and recorded, and the progress is saved. */
    method PassChunk(peer: Peer, tries: nat, offset: nat, progress: map<nat, HexDigest>, requests: seq<nat>)
      returns (stop: Option<Outcome>, progressAfter: map<nat, HexDigest>, after: seq<nat>)
      requires file != null && offset < shard.sizeBytes == file.Length <= OFFSET_LIMIT
      modifies this`sidecar, file
      ensures (stop, Transfer(file[..], progressAfter, sidecar, after))
           == Step(digests, shard, peer, tries, offset, Transfer(old(file[..]), progress, old(sidecar), requests))
    {
      stop, progressAfter, after := None, progress, requests;
      var length := Length(shard, offset);
      if offset in progress {
        if digests.chunkId(offset, file[offset..offset + length]) == progress[offset] {
          assert file[offset..offset + length] == Chunk(shard, file[..], offset);
          return;
        }
        assert file[offset..offset + length] == Chunk(shard, file[..], offset);
        progressAfter := progress - {offset};
      }
      assert progressAfter == progress - {offset};
      var result;
      result, after := RequestChunk(peer, offset, tries, requests);
      match result {
        case Unverified => stop := Some(ChunkVerifyError);
        case PeerGone => stop := Some(StreamEnded);
        case Fetched(id, data) =>
          WriteChunk(offset, data);
          progressAfter := progressAfter[offset := id];
          sidecar := progressAfter;
      }
    }

    method RunChunks(peer: Peer, tries: nat, start: map<nat, HexDigest>)
      returns (stop: Option<Outcome>, requests: seq<nat>)
      requires Transferable(shard) && file != null && file.Length == shard.sizeBytes
      modifies this`sidecar, file
      ensures var t := Loop(digests, shard, peer, tries, 0, Transfer(old(file[..]), start, old(sidecar), []));
              && stop == t.0 && requests == t.1.requests && file[..] == t.1.data && sidecar == t.1.saved
    {
      stop, requests := None, [];
      var progress, offset := start, 0;
      ghost var goal := Loop(digests, shard, peer, tries, 0, Transfer(file[..], start, sidecar, []));
      ghost var idx := 0;
      while offset < shard.sizeBytes
        invariant stop.None? && offset == Offset(shard, idx)
        invariant goal == Loop(digests, shard, peer, tries, idx, Transfer(file[..], progress, sidecar, requests))
        decreases shard.sizeBytes - offset
      {
        stop, progress, requests := PassChunk(peer, tries, offset, progress, requests);
        if stop.Some? {
          return;
        }
        offset, idx := offset + shard.chunkBytes, idx + 1;
      }
    }

    /** leech_file. `answer` is what the peer makes of the handshake. On every exit the file and the
        sidecar are as the chunk loop left them; on success the sidecar is removed. */
    method LeechFile(peer: Peer, answer: Handshake, tries: nat) returns (r: Outcome, requests: seq<nat>)
      requires Transferable(shard)
      modifies this, file
      ensures answer != Have ==> r == (if answer == Nack then PeerLacksFile else StreamEnded) && requests == []
                                 && Contents() == old(Contents()) && sidecar == old(sidecar)
      ensures answer == Have ==>
                var t := Loop(digests, shard, peer, tries, 0, Begin(shard, old(Contents()), old(sidecar)));
                && r == Conclude(digests, shard, t)
                && requests == t.1.requests
                && Contents() == Some(t.1.data)
                && sidecar == if r.Complete? then map[] else t.1.saved
    {
      if answer != Have {
        return if answer == Nack then PeerLacksFile else StreamEnded, [];
      }
      var progress: map<nat, HexDigest> := sidecar;
      if file == null || file.Length != shard.sizeBytes {
        progress := map[];
        file := new byte[shard.sizeBytes](_ => 0);
      }
      assert Transfer(file[..], progress, sidecar, []) == Begin(shard, old(Contents()), old(sidecar));
      var stop;
      stop, requests := RunChunks(peer, tries, progress);
      if stop.Some? {
        return stop.value, requests;
      }
      var digest := digests.fileHash(file[..]);
      if shard.rootHash.Pinned? && digest != shard.rootHash.digest {
        return WrongRootHash, requests;
      }
      sidecar := map[];
      r := Complete(digest);
    }
  }

  lemma CeilingCounts(size: int, chunk: nat, idx: nat)
    requires size > 0 && chunk > 0
    ensures idx < -((-size) / chunk) <==> idx * chunk < size
  {
    var q: int := -((-size) / chunk);
    var short: int := q * chunk - size;
    assert 0 <= short < chunk;
    if idx < q {
      Monotone(idx, q - 1, chunk);
      assert (q - 1) * chunk == q * chunk - chunk;
    } else {
      Monotone(q, idx, chunk);
    }
  }

  lemma Monotone(a: int, b: int, chunk: nat)
    requires a <= b
    ensures a * chunk <= b * chunk
  {
  }

  /** The source counts its chunks first; its range stops exactly where the file does. */
  lemma ChunksCoverFile(s: Shard, idx: nat)
    requires s.chunkBytes > 0
    ensures idx < NumChunks(s.sizeBytes, s.chunkBytes) <==> Offset(s, idx) < s.sizeBytes
  {
    OffsetIsProduct(s, idx);
    if s.sizeBytes > 0 {
      CeilingCounts(s.sizeBytes, s.chunkBytes, idx);
    }
  }
}
