/** How often a chunk is asked for, and what its answers make of the transfer: over the peer's answers
    themselves, whatever the peer. */
module Retries {
  import opened Bytes
  import opened Content
  import opened ChunkWire
  import opened Swarm
  import opened SwarmSafety

  /** The peer's k-th further answer, after n requests were made. */
  function AnswerNo(peer: Peer, offset: nat, n: nat, k: nat): Reply {
    peer(n + k + 1, offset)
  }

  /** A reply for this offset, of the chunk's length, under the id of its own bytes. */
  predicate Good(d: Digests, s: Shard, offset: nat, reply: Reply)
    requires offset < s.sizeBytes
  {
    && reply.Reply? && reply.offset == offset
    && |reply.data| == (if offset + s.chunkBytes < s.sizeBytes then s.chunkBytes else s.sizeBytes - offset)
    && reply.id == d.chunkId(offset, reply.data)
  }

  /** The first k answers are neither good nor the end of the stream. */
  ghost predicate AllUseless(d: Digests, s: Shard, peer: Peer, offset: nat, n: nat, k: nat)
    requires offset < s.sizeBytes
  {
    forall j: nat :: j < k ==> !AnswerNo(peer, offset, n, j).Gone? && !Good(d, s, offset, AnswerNo(peer, offset, n, j))
  }

  /** The (k+1)-th answer is good, and nothing before it decides. */
  ghost predicate FirstGood(d: Digests, s: Shard, peer: Peer, offset: nat, n: nat, k: nat)
    requires offset < s.sizeBytes
  {
    AllUseless(d, s, peer, offset, n, k) && Good(d, s, offset, AnswerNo(peer, offset, n, k))
  }

  /** The stream ends with the (k+1)-th answer, and nothing before it decides. */
  ghost predicate FirstGone(d: Digests, s: Shard, peer: Peer, offset: nat, n: nat, k: nat)
    requires offset < s.sizeBytes
  {
    AllUseless(d, s, peer, offset, n, k) && AnswerNo(peer, offset, n, k).Gone?
  }

  function Times(offset: nat, k: nat): (r: seq<nat>)
    ensures |r| == k && forall i :: 0 <= i < k ==> r[i] == offset
  {
    seq(k, _ => offset)
  }

  lemma AcceptsIfGood(d: Digests, s: Shard, offset: nat, reply: Reply)
    requires offset < s.sizeBytes
    ensures AcceptsReply(d, s, offset, reply) <==> Good(d, s, offset, reply)
  {
  }

  /** How many answers did not decide, and what came of the next one. */
  lemma {:induction false} AttemptsTell(d: Digests, s: Shard, peer: Peer, offset: nat, tries: nat, requests: seq<nat>)
    returns (k: nat)
    requires offset < s.sizeBytes
    ensures k <= tries && AllUseless(d, s, peer, offset, |requests|, k)
    ensures var (result, after) := Attempts(d, s, peer, offset, tries, requests);
            var answer := AnswerNo(peer, offset, |requests|, k);
            if k == tries then result.Unverified? && after == requests + Times(offset, tries)
            else
              && after == requests + Times(offset, k + 1)
              && (answer.Gone? || Good(d, s, offset, answer))
              && result == if answer.Gone? then PeerGone else Fetched(answer.id, answer.data)
    decreases tries
  {
    var n := |requests|;
    if tries == 0 {
      assert requests + Times(offset, 0) == requests;
      return 0;
    }
    var answer := AnswerNo(peer, offset, n, 0);
    AcceptsIfGood(d, s, offset, answer);
    if answer.Gone? || Good(d, s, offset, answer) {
      assert Times(offset, 1) == [offset];
      return 0;
    }
    var l := AttemptsTell(d, s, peer, offset, tries - 1, requests + [offset]);
    k := l + 1;
    OneFurther(d, s, peer, offset, n, l);
    assert requests + [offset] + Times(offset, l) == requests + Times(offset, k);
    assert requests + [offset] + Times(offset, l + 1) == requests + Times(offset, k + 1);
  }

  lemma OneFurther(d: Digests, s: Shard, peer: Peer, offset: nat, n: nat, l: nat)
    requires offset < s.sizeBytes && AllUseless(d, s, peer, offset, n + 1, l)
    requires !AnswerNo(peer, offset, n, 0).Gone? && !Good(d, s, offset, AnswerNo(peer, offset, n, 0))
    ensures AllUseless(d, s, peer, offset, n, l + 1)
    ensures AnswerNo(peer, offset, n, l + 1) == AnswerNo(peer, offset, n + 1, l)
  {
    forall j: nat | j < l + 1
      ensures !AnswerNo(peer, offset, n, j).Gone? && !Good(d, s, offset, AnswerNo(peer, offset, n, j))
    {
      if j > 0 {
        assert AnswerNo(peer, offset, n, j) == AnswerNo(peer, offset, n + 1, j - 1);
      }
    }
  }

  /** At most one answer decides. */
  lemma DecidedOnce(d: Digests, s: Shard, peer: Peer, offset: nat, n: nat, k: nat, l: nat)
    requires offset < s.sizeBytes && AllUseless(d, s, peer, offset, n, k) && AllUseless(d, s, peer, offset, n, l)
    requires AnswerNo(peer, offset, n, k).Gone? || Good(d, s, offset, AnswerNo(peer, offset, n, k))
    ensures l <= k
  {
  }

  /** The chunk is not recorded, or its bytes on disk do not have the recorded id. */
  ghost predicate ToFetch(d: Digests, s: Shard, t: Transfer, i: nat)
    requires Started(s, t) && IsChunk(s, i)
  {
    var o := Offset(s, i);
    var end := if o + s.chunkBytes < s.sizeBytes then o + s.chunkBytes else s.sizeBytes;
    o !in t.progress || d.chunkId(o, t.data[o..end]) != t.progress[o]
  }

  /** What one pass makes of a chunk that has to be fetched. It ends well exactly when one of the first
      `tries` answers is good and nothing before it decides, and then that answer's bytes are on disk
      and recorded; the stream's end and the failure are as exact, and so is the number of requests. */
  lemma PassOutcome(d: Digests, s: Shard, peer: Peer, tries: nat, i: nat, t: Transfer)
    requires Started(s, t) && IsChunk(s, i) && ToFetch(d, s, t, i)
    ensures var o, n := Offset(s, i), |t.requests|;
            var (stop, u) := Step(d, s, peer, tries, o, t);
            && (stop.None? <==> exists k: nat :: k < tries && FirstGood(d, s, peer, o, n, k))
            && (stop == Some(StreamEnded) <==> exists k: nat :: k < tries && FirstGone(d, s, peer, o, n, k))
            && (stop == Some(ChunkVerifyError) <==> AllUseless(d, s, peer, o, n, tries))
            && (forall k: nat :: k < tries && FirstGood(d, s, peer, o, n, k) ==>
                  && u.requests == t.requests + Times(o, k + 1)
                  && Chunk(s, u.data, o) == AnswerNo(peer, o, n, k).data
                  && o in u.progress && u.progress[o] == AnswerNo(peer, o, n, k).id && u.saved == u.progress)
            && (forall k: nat :: k < tries && FirstGone(d, s, peer, o, n, k) ==>
                  u.requests == t.requests + Times(o, k + 1))
            && (AllUseless(d, s, peer, o, n, tries) ==> u.requests == t.requests + Times(o, tries))
  {
    var o, n := Offset(s, i), |t.requests|;
    var (result, requests) := Attempts(d, s, peer, o, tries, t.requests);
    var k := AttemptsTell(d, s, peer, o, tries, t.requests);
    ToFetchIsMissing(d, s, t, i);
    if k < tries {
      forall l: nat | AllUseless(d, s, peer, o, n, l)
        ensures l <= k
      {
        DecidedOnce(d, s, peer, o, n, k, l);
      }
      forall l: nat | FirstGood(d, s, peer, o, n, l) || FirstGone(d, s, peer, o, n, l)
        ensures l == k
      {
        DecidedOnce(d, s, peer, o, n, l, k);
      }
      if result.Fetched? {
        assert FirstGood(d, s, peer, o, n, k);
        ChunkWritten(s, t.data, o, result.data);
      } else {
        assert FirstGone(d, s, peer, o, n, k);
      }
    }
  }

  lemma ToFetchIsMissing(d: Digests, s: Shard, t: Transfer, i: nat)
    requires Started(s, t) && IsChunk(s, i)
    ensures ToFetch(d, s, t, i) <==> !IntactAt(d, s, t, i)
  {
  }

  /** Every chunk to be fetched gets a good answer in time, whenever it is asked for. */
  ghost predicate Patient(d: Digests, s: Shard, peer: Peer, tries: nat, t: Transfer, idx: nat)
    requires Started(s, t)
  {
    forall j: nat, n: nat :: j >= idx && IsChunk(s, j) && ToFetch(d, s, t, j) ==>
      InTime(d, s, peer, tries, Offset(s, j), n)
  }

  ghost predicate InTime(d: Digests, s: Shard, peer: Peer, tries: nat, offset: nat, n: nat)
    requires offset < s.sizeBytes
  {
    exists k: nat :: k < tries && FirstGood(d, s, peer, offset, n, k)
  }

  /** A peer that sometimes answers badly, but never `tries` times in a row, completes the transfer. */
  lemma {:induction false} RetriesComplete(d: Digests, s: Shard, peer: Peer, tries: nat, idx: nat, t: Transfer)
    requires Started(s, t) && Patient(d, s, peer, tries, t, idx)
    ensures Loop(d, s, peer, tries, idx, t).0.None?
    decreases s.sizeBytes - Offset(s, idx)
  {
    if IsChunk(s, idx) {
      var (stop, m) := Step(d, s, peer, tries, Offset(s, idx), t);
      StepEffect(d, s, peer, tries, idx, t);
      ToFetchIsMissing(d, s, t, idx);
      if ToFetch(d, s, t, idx) {
        assert InTime(d, s, peer, tries, Offset(s, idx), |t.requests|);
        PassOutcome(d, s, peer, tries, idx, t);
      }
      PatientStays(d, s, peer, tries, t, m, idx);
      assert Offset(s, idx + 1) == Offset(s, idx) + s.chunkBytes;
      RetriesComplete(d, s, peer, tries, idx + 1, m);
    }
  }

  lemma PatientStays(d: Digests, s: Shard, peer: Peer, tries: nat, t: Transfer, m: Transfer, idx: nat)
    requires Started(s, t) && Started(s, m) && Patient(d, s, peer, tries, t, idx)
    requires forall j: nat :: j != idx && IsChunk(s, j) ==> SameChunk(s, t, m, j)
    ensures Patient(d, s, peer, tries, m, idx + 1)
  {
    forall j: nat, n: nat | j >= idx + 1 && IsChunk(s, j) && ToFetch(d, s, m, j)
      ensures InTime(d, s, peer, tries, Offset(s, j), n)
    {
      assert SameChunk(s, t, m, j);
      ToFetchIsMissing(d, s, t, j);
      ToFetchIsMissing(d, s, m, j);
    }
  }

  /** A run may begin with any file and any sidecar, whatever stopped the one before and wherever. From a
      file of the full size, a chunk that the sidecar records and whose bytes have the recorded id is
      kept as it is and never asked for, whoever the peer is. */
  lemma KeepsWhatIsRecorded(d: Digests, s: Shard, peer: Peer, tries: nat,
                            file: seq<byte>, sidecar: map<nat, HexDigest>, j: nat)
    requires s.chunkBytes > 0 && s.sizeBytes == |file| <= OFFSET_LIMIT && IsChunk(s, j)
    requires var o := Offset(s, j);
             var end := if o + s.chunkBytes < s.sizeBytes then o + s.chunkBytes else s.sizeBytes;
             o in sidecar && d.chunkId(o, file[o..end]) == sidecar[o]
    ensures var o, u := Offset(s, j), Loop(d, s, peer, tries, 0, Begin(s, Some(file), sidecar)).1;
            && o !in u.requests && o in u.progress && u.progress[o] == sidecar[o]
            && Chunk(s, u.data, o) == Chunk(s, file, o)
  {
    var t := Begin(s, Some(file), sidecar);
    var _ := LoopEffect(d, s, peer, tries, 0, t);
    var u := Loop(d, s, peer, tries, 0, t).1;
    assert IntactAt(d, s, t, j);
    assert SameChunk(s, t, u, j);
    assert !Asked(t, u, Offset(s, j));
  }

  /** A file of another size is started over: nothing recorded counts, so every chunk is asked for until
      the stream ends or a chunk fails. */
  lemma StartsOver(d: Digests, s: Shard, file: Option<seq<byte>>, sidecar: map<nat, HexDigest>, j: nat)
    requires s.chunkBytes > 0 && s.sizeBytes <= OFFSET_LIMIT && IsChunk(s, j)
    requires file.None? || |file.value| != s.sizeBytes
    ensures ToFetch(d, s, Begin(s, file, sidecar), j)
  {
  }

  /** The call completes only with a file whose hash is the one reported, and the one that is pinned. */
  lemma CompletesOnlyAsPinned(d: Digests, s: Shard, peer: Peer, tries: nat, t: Transfer, digest: HexDigest)
    requires Started(s, t)
    ensures var r := Loop(d, s, peer, tries, 0, t);
            Conclude(d, s, r) == Complete(digest) <==>
              && r.0.None? && d.fileHash(r.1.data) == digest
              && (s.rootHash.Pinned? ==> digest == s.rootHash.digest)
  {
  }

  lemma ChunkAt(s: Shard, offset: nat) returns (i: nat)
    requires s.chunkBytes > 0 && offset < s.sizeBytes && offset % s.chunkBytes == 0
    ensures IsChunk(s, i) && Offset(s, i) == offset
  {
    i := offset / s.chunkBytes;
    OffsetIsProduct(s, i);
  }

  lemma StopsElsewhere(d: Digests, s: Shard, file: seq<byte>, offset: nat)
    requires s.chunkBytes > 0
    ensures SeedReply(d, s, file, Request(offset)).Stops? <==> offset >= s.sizeBytes || offset % s.chunkBytes != 0
  {
  }

  /** The seeder answers no request but those for where a chunk begins; what it then sends is the chunk
      (SeederServesChunk). */
  lemma SeederAnswersChunksOnly(d: Digests, s: Shard, file: seq<byte>, offset: nat)
    requires s.chunkBytes > 0 && |file| == s.sizeBytes
    ensures SeedReply(d, s, file, Request(offset)).Stops? <==> !exists i: nat :: IsChunk(s, i) && offset == Offset(s, i)
  {
    StopsElsewhere(d, s, file, offset);
    if i: nat :| IsChunk(s, i) && offset == Offset(s, i) {
      SeederServesChunk(d, s, file, i);
    }
    if offset < s.sizeBytes && offset % s.chunkBytes == 0 {
      var i := ChunkAt(s, offset);
    }
  }
}
