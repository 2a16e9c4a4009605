/** What a chunk transfer guarantees: against any peer, across interruptions, and together with an
    honest seeder. */
module SwarmSafety {
  import opened Bytes
  import opened Content
  import opened ChunkWire
  import opened Swarm

  ghost predicate Started(s: Shard, t: Transfer) {
    s.chunkBytes > 0 && s.sizeBytes == |t.data| <= OFFSET_LIMIT
  }

  ghost predicate IsChunk(s: Shard, j: nat) {
    Offset(s, j) < s.sizeBytes
  }

  ghost predicate IntactAt(d: Digests, s: Shard, t: Transfer, j: nat)
    requires Started(s, t) && IsChunk(s, j)
  {
    Intact(d, s, t.data, t.progress, Offset(s, j))
  }

  /** Chunk j has the same bytes and the same record in both. */
  ghost predicate SameChunk(s: Shard, t: Transfer, u: Transfer, j: nat)
    requires Started(s, t) && Started(s, u) && IsChunk(s, j)
  {
    var o := Offset(s, j);
    Chunk(s, t.data, o) == Chunk(s, u.data, o)
    && (o in t.progress <==> o in u.progress) && (o in t.progress ==> t.progress[o] == u.progress[o])
  }

  /** What is in memory was saved, except that a record may have been dropped since. */
  ghost predicate Synced(t: Transfer) {
    forall o :: o in t.progress ==> o in t.saved && t.saved[o] == t.progress[o]
  }

  lemma {:induction false} OffsetsApart(s: Shard, i: nat, j: nat)
    requires i < j
    ensures Offset(s, i) + s.chunkBytes <= Offset(s, j)
  {
    if i + 1 < j {
      OffsetsApart(s, i, j - 1);
    }
  }

  lemma SliceWritten<T>(data: seq<T>, o: nat, part: seq<T>)
    requires o + |part| <= |data|
    ensures (data[..o] + part + data[o + |part|..])[o..o + |part|] == part
  {
    var before := data[..o] + part;
    assert (before + data[o + |part|..])[..o + |part|] == before;
    assert before[o..] == part;
  }

  lemma SliceBefore<T>(data: seq<T>, o: nat, part: seq<T>, p: nat, n: nat)
    requires o + |part| <= |data| && p + n <= o
    ensures (data[..o] + part + data[o + |part|..])[p..p + n] == data[p..p + n]
  {
    var written := data[..o] + part + data[o + |part|..];
    var after, before := written[p..p + n], data[p..p + n];
    assert forall k :: 0 <= k < n ==> after[k] == before[k];
  }

  lemma SliceBehind<T>(data: seq<T>, o: nat, part: seq<T>, p: nat, n: nat)
    requires o + |part| <= p && p + n <= |data|
    ensures (data[..o] + part + data[o + |part|..])[p..p + n] == data[p..p + n]
  {
    var written := data[..o] + part + data[o + |part|..];
    var after, before := written[p..p + n], data[p..p + n];
    assert forall k :: 0 <= k < n ==> after[k] == before[k];
  }

  lemma ChunkWritten(s: Shard, data: seq<byte>, o: nat, chunk: seq<byte>)
    requires o <= s.sizeBytes == |data| && |chunk| == Length(s, o)
    ensures Chunk(s, Write(s, data, o, chunk), o) == chunk
  {
    SliceWritten(data, o, chunk);
  }

  lemma ChunkElsewhere(s: Shard, data: seq<byte>, o: nat, chunk: seq<byte>, p: nat)
    requires o <= s.sizeBytes == |data| && |chunk| == Length(s, o) && p <= s.sizeBytes
    requires p + Length(s, p) <= o || o + |chunk| <= p
    ensures Chunk(s, Write(s, data, o, chunk), p) == Chunk(s, data, p)
  {
    if p + Length(s, p) <= o {
      SliceBefore(data, o, chunk, p, Length(s, p));
    } else {
      SliceBehind(data, o, chunk, p, Length(s, p));
    }
  }

  lemma WriteIsLocal(s: Shard, data: seq<byte>, i: nat, chunk: seq<byte>, j: nat)
    requires s.chunkBytes > 0 && s.sizeBytes == |data| && IsChunk(s, i) && IsChunk(s, j)
    requires |chunk| == Length(s, Offset(s, i))
    ensures Chunk(s, Write(s, data, Offset(s, i), chunk), Offset(s, j))
         == if i == j then chunk else Chunk(s, data, Offset(s, j))
  {
    if i == j {
      ChunkWritten(s, data, Offset(s, i), chunk);
    } else {
      OffsetsApart(s, if i < j then i else j, if i < j then j else i);
      ChunkElsewhere(s, data, Offset(s, i), chunk, Offset(s, j));
    }
  }

  // ---- any peer ----------------------------------------------------------------------------------

  lemma {:induction false} AttemptsAsk(d: Digests, s: Shard, peer: Peer, offset: nat, tries: nat, requests: seq<nat>)
    requires offset <= s.sizeBytes
    ensures var after := Attempts(d, s, peer, offset, tries, requests).1;
            && requests <= after && |after| <= |requests| + tries
            && forall k :: |requests| <= k < |after| ==> after[k] == offset
    decreases tries
  {
    if tries > 0 {
      AttemptsAsk(d, s, peer, offset, tries - 1, requests + [offset]);
    }
  }

  /** What one pass may change: only bytes, record and requests of its own chunk. */
  ghost predicate Passed(d: Digests, s: Shard, tries: nat, i: nat, t: Transfer, u: Transfer)
    requires Started(s, t) && IsChunk(s, i)
  {
    && |u.data| == |t.data|
    && (forall j: nat :: j != i && IsChunk(s, j) ==> SameChunk(s, t, u, j))
    && (IntactAt(d, s, t, i) ==> u == t)
    && t.requests <= u.requests && |u.requests| <= |t.requests| + tries
    && (forall k :: |t.requests| <= k < |u.requests| ==> u.requests[k] == Offset(s, i))
  }

  /** A chunk written and recorded, and every other one as it was. */
  lemma FetchedEffect(d: Digests, s: Shard, i: nat, t: Transfer, id: HexDigest, data: seq<byte>, requests: seq<nat>)
    requires Started(s, t) && IsChunk(s, i) && |data| == Length(s, Offset(s, i)) && d.chunkId(Offset(s, i), data) == id
    ensures var o := Offset(s, i);
            var recorded := (t.progress - {o})[o := id];
            var u := Transfer(Write(s, t.data, o, data), recorded, recorded, requests);
            && IntactAt(d, s, u, i)
            && (forall j: nat :: j != i && IsChunk(s, j) ==> SameChunk(s, t, u, j))
  {
    WriteIsLocal(s, t.data, i, data, i);
    forall j: nat | j != i && IsChunk(s, j)
      ensures Offset(s, j) != Offset(s, i)
      ensures Chunk(s, Write(s, t.data, Offset(s, i), data), Offset(s, j)) == Chunk(s, t.data, Offset(s, j))
    {
      OffsetsApart(s, if i < j then i else j, if i < j then j else i);
      WriteIsLocal(s, t.data, i, data, j);
    }
  }

  /** A record dropped, and every other one as it was. */
  lemma DroppedEffect(s: Shard, i: nat, t: Transfer, requests: seq<nat>)
    requires Started(s, t) && IsChunk(s, i)
    ensures var u := Transfer(t.data, t.progress - {Offset(s, i)}, t.saved, requests);
            forall j: nat :: j != i && IsChunk(s, j) ==> SameChunk(s, t, u, j)
  {
    forall j: nat | j != i && IsChunk(s, j)
      ensures Offset(s, j) != Offset(s, i)
    {
      OffsetsApart(s, if i < j then i else j, if i < j then j else i);
    }
  }

  /** A pass that ends well leaves its chunk recorded and verified; one that does not, leaves it so
      that it will be asked for again. */
  lemma StepEffect(d: Digests, s: Shard, peer: Peer, tries: nat, i: nat, t: Transfer)
    requires Started(s, t) && IsChunk(s, i)
    ensures var (stop, u) := Step(d, s, peer, tries, Offset(s, i), t);
            && Passed(d, s, tries, i, t, u)
            && (stop.None? <==> IntactAt(d, s, u, i))
            && (Synced(t) ==> Synced(u))
  {
    if !IntactAt(d, s, t, i) {
      AttemptsAsk(d, s, peer, Offset(s, i), tries, t.requests);
      var (result, requests) := Attempts(d, s, peer, Offset(s, i), tries, t.requests);
      if result.Fetched? {
        FetchedEffect(d, s, i, t, result.id, result.data, requests);
      } else {
        DroppedEffect(s, i, t, requests);
      }
    }
  }

  /** How many chunks from idx on are not recorded and intact. */
  ghost function Missing(d: Digests, s: Shard, t: Transfer, idx: nat): nat
    requires Started(s, t)
    decreases s.sizeBytes - Offset(s, idx)
  {
    if !IsChunk(s, idx) then 0
    else
      assert Offset(s, idx + 1) == Offset(s, idx) + s.chunkBytes;
      (if IntactAt(d, s, t, idx) then 0 else 1) + Missing(d, s, t, idx + 1)
  }

  lemma {:induction false} MissingDepends(d: Digests, s: Shard, t: Transfer, u: Transfer, idx: nat)
    requires Started(s, t) && Started(s, u)
    requires forall j: nat :: j >= idx && IsChunk(s, j) ==> SameChunk(s, t, u, j)
    ensures Missing(d, s, t, idx) == Missing(d, s, u, idx)
    decreases s.sizeBytes - Offset(s, idx)
  {
    if IsChunk(s, idx) {
      assert Offset(s, idx + 1) == Offset(s, idx) + s.chunkBytes;
      assert SameChunk(s, t, u, idx);
      MissingDepends(d, s, t, u, idx + 1);
    }
  }

  ghost predicate Asked(t: Transfer, u: Transfer, offset: nat)
    requires |t.requests| <= |u.requests|
  {
    exists k :: |t.requests| <= k < |u.requests| && u.requests[k] == offset
  }

  /** The chunk loop up to the chunk `end` at which it stopped (or the end of the file). */
  ghost predicate Progressed(d: Digests, s: Shard, t: Transfer, u: Transfer, from: nat, end: nat)
    requires Started(s, t) && Started(s, u) && |t.requests| <= |u.requests|
  {
    && (forall j: nat :: IsChunk(s, j) && (j < from || j > end) ==> SameChunk(s, t, u, j))
    && (forall j: nat :: IsChunk(s, j) && from <= j < end ==> IntactAt(d, s, u, j))
    && (forall j: nat :: IsChunk(s, j) && IntactAt(d, s, t, j) && j >= from ==>
          SameChunk(s, t, u, j) && !Asked(t, u, Offset(s, j)))
    && (forall j: nat :: IsChunk(s, j) && j < from ==> !Asked(t, u, Offset(s, j)))
  }

  lemma ProgressedOn(d: Digests, s: Shard, tries: nat, t: Transfer, m: Transfer, u: Transfer, i: nat, end: nat)
    requires Started(s, t) && IsChunk(s, i) && Passed(d, s, tries, i, t, m) && IntactAt(d, s, m, i)
    requires Started(s, u) && m.requests <= u.requests && i < end && Progressed(d, s, m, u, i + 1, end)
    ensures Progressed(d, s, t, u, i, end)
  {
    assert SameChunk(s, m, u, i) && !Asked(m, u, Offset(s, i));
    forall j: nat | IsChunk(s, j) && j != i
      ensures SameChunk(s, t, m, j) && (Asked(t, u, Offset(s, j)) ==> Asked(m, u, Offset(s, j)))
    {
      OffsetsApart(s, if i < j then i else j, if i < j then j else i);
      assert forall k :: |t.requests| <= k < |m.requests| ==> u.requests[k] == m.requests[k] == Offset(s, i);
    }
    if IntactAt(d, s, t, i) {
      assert m == t;
    }
  }

  lemma StoppedHere(d: Digests, s: Shard, tries: nat, t: Transfer, u: Transfer, i: nat)
    requires Started(s, t) && IsChunk(s, i) && Passed(d, s, tries, i, t, u) && !IntactAt(d, s, t, i)
    ensures Progressed(d, s, t, u, i, i)
  {
    forall j: nat | IsChunk(s, j) && j != i
      ensures SameChunk(s, t, u, j) && !Asked(t, u, Offset(s, j))
    {
      OffsetsApart(s, if i < j then i else j, if i < j then j else i);
    }
  }

  lemma MissingStep(d: Digests, s: Shard, tries: nat, t: Transfer, m: Transfer, i: nat)
    requires Started(s, t) && IsChunk(s, i) && Passed(d, s, tries, i, t, m)
    ensures |m.requests| + tries * Missing(d, s, m, i + 1) <= |t.requests| + tries * Missing(d, s, t, i)
    ensures |m.requests| <= |t.requests| + tries * Missing(d, s, t, i)
  {
    assert Offset(s, i + 1) == Offset(s, i) + s.chunkBytes;
    MissingDepends(d, s, t, m, i + 1);
    OneMore(tries, Missing(d, s, t, i + 1));
  }

  lemma OneMore(tries: nat, n: nat)
    ensures tries * (1 + n) == tries + tries * n
  {
  }

  /** Against any peer: every chunk before the one where the loop stopped is recorded and verifies,
      nothing else was written, no intact chunk was asked for again, and at most `tries` requests
      were made for each missing chunk. */
  lemma {:induction false} LoopEffect(d: Digests, s: Shard, peer: Peer, tries: nat, idx: nat, t: Transfer)
    returns (end: nat)
    requires Started(s, t) && Synced(t)
    ensures var (stop, u) := Loop(d, s, peer, tries, idx, t);
            && t.requests <= u.requests
            && |u.requests| <= |t.requests| + tries * Missing(d, s, t, idx)
            && Synced(u)
            && idx <= end && Progressed(d, s, t, u, idx, end)
            && (stop.None? <==> !IsChunk(s, end))
            && (stop.Some? ==> !IntactAt(d, s, u, end))
    decreases s.sizeBytes - Offset(s, idx)
  {
    end := idx;
    if IsChunk(s, idx) {
      var (stop, m) := Step(d, s, peer, tries, Offset(s, idx), t);
      StepEffect(d, s, peer, tries, idx, t);
      MissingStep(d, s, tries, t, m, idx);
      if stop.None? {
        assert Offset(s, idx + 1) == Offset(s, idx) + s.chunkBytes;
        end := LoopEffect(d, s, peer, tries, idx + 1, m);
        var u := Loop(d, s, peer, tries, idx + 1, m).1;
        ProgressedOn(d, s, tries, t, m, u, idx, end);
        assert |u.requests| <= |m.requests| + tries * Missing(d, s, m, idx + 1);
      } else {
        StoppedHere(d, s, tries, t, m, idx);
      }
    } else {
      assert Missing(d, s, t, idx) == 0;
      NoChunksFrom(s, idx);
    }
  }

  lemma NoChunksFrom(s: Shard, idx: nat)
    requires !IsChunk(s, idx)
    ensures forall j: nat :: j >= idx ==> !IsChunk(s, j)
  {
    forall j: nat | j >= idx
      ensures !IsChunk(s, j)
    {
      OffsetsOrdered(s, idx, j);
    }
  }

  /** What the next run starts from when this one is interrupted: the file and the saved sidecar. */
  function Resumed(s: Shard, t: Transfer): Transfer
    requires |t.data| == s.sizeBytes
  {
    Begin(s, Some(t.data), t.saved)
  }

  /** A run may begin with any file and any sidecar, whatever stopped the one before and wherever: it
      never asks for a chunk that is recorded there and intact, whoever its peer is. */
  lemma RerunRefetchesNothingIntact(d: Digests, s: Shard, peer: Peer, tries: nat,
                                    file: Option<seq<byte>>, sidecar: map<nat, HexDigest>, j: nat)
    requires Started(s, Begin(s, file, sidecar)) && IsChunk(s, j) && IntactAt(d, s, Begin(s, file, sidecar), j)
    ensures var u := Loop(d, s, peer, tries, 0, Begin(s, file, sidecar)).1;
            IntactAt(d, s, u, j) && Offset(s, j) !in u.requests
  {
    var t := Begin(s, file, sidecar);
    var _ := LoopEffect(d, s, peer, tries, 0, t);
    assert !Asked(t, Loop(d, s, peer, tries, 0, t).1, Offset(s, j));
  }

  /** In particular what is intact when the chunk loop ends is intact when the next run begins: the
      sidecar on disk records it. */
  lemma LoopSavesWhatIsIntact(d: Digests, s: Shard, peer: Peer, tries: nat, t: Transfer, j: nat)
    requires Started(s, t) && Synced(t) && IsChunk(s, j)
    requires IntactAt(d, s, Loop(d, s, peer, tries, 0, t).1, j)
    ensures IntactAt(d, s, Resumed(s, Loop(d, s, peer, tries, 0, t).1), j)
  {
    var _ := LoopEffect(d, s, peer, tries, 0, t);
  }

  // ---- an honest seeder --------------------------------------------------------------------------

  /** A seeder that holds `source`, seen from the other end of the stream. */
  function SeederAsPeer(d: Digests, s: Shard, source: seq<byte>): Peer
    requires s.chunkBytes > 0
  {
    (n: nat, offset: nat) =>
      var answer := SeedReply(d, s, source, Request(offset));
      if answer.Sends? then answer.reply else Gone
  }

  ghost predicate HonestSetting(s: Shard, source: seq<byte>, t: Transfer, tries: nat) {
    Started(s, t) && |source| == s.sizeBytes && tries > 0
  }

  /** A reply with chunk j can be sent. */
  predicate ChunkFits(s: Shard, j: nat) {
    Offset(s, j) < s.sizeBytes ==> FitsReply(Length(s, Offset(s, j)))
  }

  /** So can one with any chunk, from idx on, that has to be fetched. */
  ghost predicate MissingFit(d: Digests, s: Shard, t: Transfer, idx: nat)
    requires Started(s, t)
  {
    forall j: nat :: j >= idx && IsChunk(s, j) && !IntactAt(d, s, t, j) ==> ChunkFits(s, j)
  }

  lemma SeederServesChunk(d: Digests, s: Shard, source: seq<byte>, i: nat)
    requires s.chunkBytes > 0 && |source| == s.sizeBytes && IsChunk(s, i)
    ensures var o := Offset(s, i);
            SeedReply(d, s, source, Request(o))
            == if ChunkFits(s, i) then Sends(Reply(o, d.chunkId(o, Chunk(s, source, o)), Chunk(s, source, o)))
               else CannotSend
  {
    OffsetIsProduct(s, i);
    MultipleHasNoRemainder(i, s.chunkBytes);
  }

  lemma {:induction false} MultipleHasNoRemainder(k: nat, d: nat)
    requires d > 0
    ensures (k * d) % d == 0
  {
    if k > 0 {
      MultipleHasNoRemainder(k - 1, d);
      var before := (k - 1) * d;
      assert k * d == before + d;
      assert before == before / d * d;
      assert k * d == (before / d + 1) * d + 0;
      RemainderIs(k * d, before / d + 1, d);
    }
  }

  lemma RemainderIs(n: nat, q: nat, d: nat)
    requires d > 0 && n == q * d
    ensures n % d == 0
  {
    var q', r := n / d, n % d;
    var x: int := q - q';
    assert x * d == r;
    if x >= 1 {
      AtLeast(x, d);
    } else if x <= -1 {
      AtLeast(-x, d);
    }
  }

  lemma AtLeast(x: int, d: nat)
    requires x >= 1
    ensures x * d >= d
  {
  }

  lemma HonestStep(d: Digests, s: Shard, source: seq<byte>, tries: nat, i: nat, t: Transfer)
    requires HonestSetting(s, source, t, tries) && IsChunk(s, i) && !IntactAt(d, s, t, i) && ChunkFits(s, i)
    ensures var (stop, u) := Step(d, s, SeederAsPeer(d, s, source), tries, Offset(s, i), t);
            && stop.None? && u.requests == t.requests + [Offset(s, i)]
            && Chunk(s, u.data, Offset(s, i)) == Chunk(s, source, Offset(s, i))
  {
    SeederServesChunk(d, s, source, i);
    WriteIsLocal(s, t.data, i, Chunk(s, source, Offset(s, i)), i);
  }

  ghost function MissingOffsets(d: Digests, s: Shard, t: Transfer, idx: nat): seq<nat>
    requires Started(s, t)
    decreases s.sizeBytes - Offset(s, idx)
  {
    if !IsChunk(s, idx) then []
    else
      assert Offset(s, idx + 1) == Offset(s, idx) + s.chunkBytes;
      (if IntactAt(d, s, t, idx) then [] else [Offset(s, idx)]) + MissingOffsets(d, s, t, idx + 1)
  }

  lemma {:induction false} MissingOffsetsDepend(d: Digests, s: Shard, t: Transfer, u: Transfer, idx: nat)
    requires Started(s, t) && Started(s, u)
    requires forall j: nat :: j >= idx && IsChunk(s, j) ==> SameChunk(s, t, u, j)
    ensures MissingOffsets(d, s, t, idx) == MissingOffsets(d, s, u, idx)
    decreases s.sizeBytes - Offset(s, idx)
  {
    if IsChunk(s, idx) {
      assert Offset(s, idx + 1) == Offset(s, idx) + s.chunkBytes;
      assert SameChunk(s, t, u, idx);
      MissingOffsetsDepend(d, s, t, u, idx + 1);
    }
  }

  /** Chunk j of the result: kept where it was intact, the source's where it was not. */
  ghost predicate Patched(d: Digests, s: Shard, source: seq<byte>, t: Transfer, u: Transfer, j: nat)
    requires Started(s, t) && Started(s, u) && |source| == s.sizeBytes && IsChunk(s, j)
  {
    var o := Offset(s, j);
    Chunk(s, u.data, o) == if IntactAt(d, s, t, j) then Chunk(s, t.data, o) else Chunk(s, source, o)
  }

  lemma PatchedThrough(d: Digests, s: Shard, source: seq<byte>, t: Transfer, m: Transfer, u: Transfer, idx: nat)
    requires Started(s, t) && Started(s, m) && Started(s, u) && |source| == s.sizeBytes
    requires forall j: nat :: j > idx && IsChunk(s, j) ==> SameChunk(s, t, m, j)
    requires forall j: nat :: j > idx && IsChunk(s, j) ==> Patched(d, s, source, m, u, j)
    ensures forall j: nat :: j > idx && IsChunk(s, j) ==> Patched(d, s, source, t, u, j)
  {
    forall j: nat | j > idx && IsChunk(s, j)
      ensures Patched(d, s, source, t, u, j)
    {
      assert SameChunk(s, t, m, j) && Patched(d, s, source, m, u, j);
    }
  }

  /** One pass of the loop with an honest seeder. */
  lemma HonestPass(d: Digests, s: Shard, source: seq<byte>, tries: nat, idx: nat, t: Transfer)
    requires HonestSetting(s, source, t, tries) && IsChunk(s, idx)
    requires IntactAt(d, s, t, idx) || ChunkFits(s, idx)
    ensures var (stop, m) := Step(d, s, SeederAsPeer(d, s, source), tries, Offset(s, idx), t);
            && stop.None? && Started(s, m) && Patched(d, s, source, t, m, idx)
            && m.requests == t.requests + (if IntactAt(d, s, t, idx) then [] else [Offset(s, idx)])
            && (forall j: nat :: j != idx && IsChunk(s, j) ==> SameChunk(s, t, m, j))
  {
    StepEffect(d, s, SeederAsPeer(d, s, source), tries, idx, t);
    if !IntactAt(d, s, t, idx) {
      HonestStep(d, s, source, tries, idx, t);
    }
  }

  lemma MissingOffsetsStep(d: Digests, s: Shard, t: Transfer, m: Transfer, idx: nat)
    requires Started(s, t) && Started(s, m) && IsChunk(s, idx)
    requires m.requests == t.requests + (if IntactAt(d, s, t, idx) then [] else [Offset(s, idx)])
    requires forall j: nat :: j != idx && IsChunk(s, j) ==> SameChunk(s, t, m, j)
    ensures m.requests + MissingOffsets(d, s, m, idx + 1) == t.requests + MissingOffsets(d, s, t, idx)
  {
    assert Offset(s, idx + 1) == Offset(s, idx) + s.chunkBytes;
    MissingOffsetsDepend(d, s, t, m, idx + 1);
  }

  lemma MissingFitStays(d: Digests, s: Shard, t: Transfer, m: Transfer, idx: nat)
    requires Started(s, t) && Started(s, m) && MissingFit(d, s, t, idx)
    requires forall j: nat :: j != idx && IsChunk(s, j) ==> SameChunk(s, t, m, j)
    ensures MissingFit(d, s, m, idx + 1)
  {
    forall j: nat | j >= idx + 1 && IsChunk(s, j) && !IntactAt(d, s, m, j)
      ensures ChunkFits(s, j)
    {
      assert SameChunk(s, t, m, j);
      assert !IntactAt(d, s, t, j);
    }
  }

  lemma {:induction false} HonestLoop(d: Digests, s: Shard, source: seq<byte>, tries: nat, idx: nat, t: Transfer)
    requires HonestSetting(s, source, t, tries) && MissingFit(d, s, t, idx)
    ensures var (stop, u) := Loop(d, s, SeederAsPeer(d, s, source), tries, idx, t);
            && stop.None?
            && u.requests == t.requests + MissingOffsets(d, s, t, idx)
            && (forall j: nat :: IsChunk(s, j) && j < idx ==> SameChunk(s, t, u, j))
            && (forall j: nat :: IsChunk(s, j) && j >= idx ==> Patched(d, s, source, t, u, j))
    decreases s.sizeBytes - Offset(s, idx)
  {
    if IsChunk(s, idx) {
      var peer := SeederAsPeer(d, s, source);
      var m := Step(d, s, peer, tries, Offset(s, idx), t).1;
      HonestPass(d, s, source, tries, idx, t);
      MissingOffsetsStep(d, s, t, m, idx);
      MissingFitStays(d, s, t, m, idx);
      assert Offset(s, idx + 1) == Offset(s, idx) + s.chunkBytes;
      HonestLoop(d, s, source, tries, idx + 1, m);
      var u := Loop(d, s, peer, tries, idx + 1, m).1;
      PatchedThrough(d, s, source, t, m, u, idx);
      assert SameChunk(s, m, u, idx);
    } else {
      NoChunksFrom(s, idx);
    }
  }

  lemma ChunksDetermineFile(s: Shard, a: seq<byte>, b: seq<byte>)
    requires s.chunkBytes > 0 && |a| == |b| == s.sizeBytes
    requires forall j: nat :: IsChunk(s, j) ==> Chunk(s, a, Offset(s, j)) == Chunk(s, b, Offset(s, j))
    ensures a == b
  {
    forall p | 0 <= p < |a|
      ensures a[p] == b[p]
    {
      var j := p / s.chunkBytes;
      OffsetIsProduct(s, j);
      assert p == j * s.chunkBytes + p % s.chunkBytes;
      assert IsChunk(s, j);
      assert Chunk(s, a, Offset(s, j))[p - Offset(s, j)] == Chunk(s, b, Offset(s, j))[p - Offset(s, j)];
    }
  }

  /** A recorded chunk that verifies although its bytes are not the source's. */
  ghost predicate Poisoned(d: Digests, s: Shard, source: seq<byte>, t: Transfer)
    requires Started(s, t) && |source| == s.sizeBytes
  {
    exists j: nat :: IsChunk(s, j) && IntactAt(d, s, t, j)
                && Chunk(s, t.data, Offset(s, j)) != Chunk(s, source, Offset(s, j))
  }

  /** A missing chunk that fits no frame ends the transfer when its turn comes. */
  lemma OversizedStopsHere(d: Digests, s: Shard, source: seq<byte>, tries: nat, i: nat, t: Transfer)
    requires HonestSetting(s, source, t, tries) && IsChunk(s, i) && !IntactAt(d, s, t, i) && !ChunkFits(s, i)
    ensures Step(d, s, SeederAsPeer(d, s, source), tries, Offset(s, i), t).0 == Some(StreamEnded)
  {
    SeederServesChunk(d, s, source, i);
    assert SeederAsPeer(d, s, source)(|t.requests| + 1, Offset(s, i)) == Gone;
  }

  lemma {:induction false} OversizedStops(d: Digests, s: Shard, source: seq<byte>, tries: nat, idx: nat, t: Transfer)
    requires HonestSetting(s, source, t, tries) && !MissingFit(d, s, t, idx)
    ensures Loop(d, s, SeederAsPeer(d, s, source), tries, idx, t).0 == Some(StreamEnded)
    decreases s.sizeBytes - Offset(s, idx)
  {
    var j: nat :| j >= idx && IsChunk(s, j) && !IntactAt(d, s, t, j) && !ChunkFits(s, j);
    OffsetsOrdered(s, idx, j);
    if !IntactAt(d, s, t, idx) && !ChunkFits(s, idx) {
      OversizedStopsHere(d, s, source, tries, idx, t);
    } else {
      var m := Step(d, s, SeederAsPeer(d, s, source), tries, Offset(s, idx), t).1;
      HonestPass(d, s, source, tries, idx, t);
      assert Offset(s, idx + 1) == Offset(s, idx) + s.chunkBytes;
      assert SameChunk(s, t, m, j);
      assert !IntactAt(d, s, m, j);
      OversizedStops(d, s, source, tries, idx + 1, m);
    }
  }

  /** With an honest seeder the loop completes exactly when every chunk it has to fetch can be sent. It
      then asks once for each missing chunk in order, and ends with the source's bytes exactly when no
      chunk it keeps differs from the source. */
  lemma HonestTransfer(d: Digests, s: Shard, source: seq<byte>, tries: nat, t: Transfer)
    requires HonestSetting(s, source, t, tries) && t.requests == []
    ensures var (stop, u) := Loop(d, s, SeederAsPeer(d, s, source), tries, 0, t);
            && (if MissingFit(d, s, t, 0) then stop.None? else stop == Some(StreamEnded))
            && (MissingFit(d, s, t, 0) ==>
                  u.requests == MissingOffsets(d, s, t, 0) && (u.data == source <==> !Poisoned(d, s, source, t)))
  {
    if MissingFit(d, s, t, 0) {
      HonestLoop(d, s, source, tries, 0, t);
      PatchedIsSource(d, s, source, t, Loop(d, s, SeederAsPeer(d, s, source), tries, 0, t).1);
    } else {
      OversizedStops(d, s, source, tries, 0, t);
    }
  }

  lemma PatchedIsSource(d: Digests, s: Shard, source: seq<byte>, t: Transfer, u: Transfer)
    requires Started(s, t) && Started(s, u) && |source| == s.sizeBytes
    requires forall j: nat :: IsChunk(s, j) ==> Patched(d, s, source, t, u, j)
    ensures u.data == source <==> !Poisoned(d, s, source, t)
  {
    if Poisoned(d, s, source, t) {
      var j: nat :| IsChunk(s, j) && IntactAt(d, s, t, j)
               && Chunk(s, t.data, Offset(s, j)) != Chunk(s, source, Offset(s, j));
      assert Patched(d, s, source, t, u, j);
    } else {
      forall j: nat | IsChunk(s, j)
        ensures Chunk(s, u.data, Offset(s, j)) == Chunk(s, source, Offset(s, j))
      {
        assert Patched(d, s, source, t, u, j);
      }
      ChunksDetermineFile(s, u.data, source);
    }
  }

  /** leech_file from an honest seeder, when every missing chunk can be sent. If the manifest pins the
      source's hash, it completes with the source exactly when the partial file was not poisoned, and
      otherwise refuses the result. If the hash is pending, it completes in any case: with wrong bytes
      exactly when the partial file was poisoned. */
  lemma HonestLeechCompletesIffUnpoisoned(d: Digests, s: Shard, source: seq<byte>, tries: nat,
                                          file: Option<seq<byte>>, sidecar: map<nat, HexDigest>)
    requires HonestSetting(s, source, Begin(s, file, sidecar), tries)
    requires s.rootHash.Pinned? ==> s.rootHash.digest == d.fileHash(source)
    requires var u := Loop(d, s, SeederAsPeer(d, s, source), tries, 0, Begin(s, file, sidecar)).1;
             d.fileHash(u.data) == d.fileHash(source) ==> u.data == source
    ensures var t := Begin(s, file, sidecar);
            var r := Loop(d, s, SeederAsPeer(d, s, source), tries, 0, t);
            if !MissingFit(d, s, t, 0) then Conclude(d, s, r) == StreamEnded
            else
              && (r.1.data == source <==> !Poisoned(d, s, source, t))
              && Conclude(d, s, r)
                 == if s.rootHash.Pinned? && Poisoned(d, s, source, t) then WrongRootHash
                    else Complete(d.fileHash(r.1.data))
  {
    HonestTransfer(d, s, source, tries, Begin(s, file, sidecar));
  }

  /** How a file gets poisoned: a peer that answers with other bytes of the right length, under the id
      of those bytes. Whatever chunk it is asked for is accepted, written and recorded. */
  lemma WrongBytesPoison(d: Digests, s: Shard, source: seq<byte>, tries: nat, i: nat, t: Transfer, peer: Peer,
                         wrong: seq<byte>)
    requires HonestSetting(s, source, t, tries) && IsChunk(s, i) && !IntactAt(d, s, t, i)
    requires |wrong| == Length(s, Offset(s, i)) && wrong != Chunk(s, source, Offset(s, i))
    requires forall n: nat :: peer(n, Offset(s, i)) == Reply(Offset(s, i), d.chunkId(Offset(s, i), wrong), wrong)
    ensures var (stop, u) := Step(d, s, peer, tries, Offset(s, i), t);
            stop.None? && Started(s, u) && Poisoned(d, s, source, u)
  {
    var u := Step(d, s, peer, tries, Offset(s, i), t).1;
    assert peer(|t.requests| + 1, Offset(s, i)).data == wrong;
    WriteIsLocal(s, t.data, i, wrong, i);
    StepEffect(d, s, peer, tries, i, t);
    assert Chunk(s, u.data, Offset(s, i)) == wrong;
  }

  /** A new file, and any partial file whose records are ids of the source's own chunks, is not
      poisoned, however its bytes rotted: a rotten chunk fails its check and is fetched again. */
  lemma TrueRecordsAreUnpoisoned(d: Digests, s: Shard, source: seq<byte>, t: Transfer)
    requires Started(s, t) && |source| == s.sizeBytes
    requires forall j: nat :: IsChunk(s, j) && Offset(s, j) in t.progress ==>
               t.progress[Offset(s, j)] == d.chunkId(Offset(s, j), Chunk(s, source, Offset(s, j)))
    requires forall j: nat :: IsChunk(s, j) ==>
               DistinctIds(d, s, Offset(s, j), Chunk(s, t.data, Offset(s, j)), Chunk(s, source, Offset(s, j)))
    ensures !Poisoned(d, s, source, t)
  {
    forall j: nat | IsChunk(s, j) && IntactAt(d, s, t, j)
      ensures Chunk(s, t.data, Offset(s, j)) == Chunk(s, source, Offset(s, j))
    {
      var o := Offset(s, j);
      assert DistinctIds(d, s, o, Chunk(s, t.data, o), Chunk(s, source, o));
    }
  }

  /** Two chunk contents at one place have different ids if they differ. */
  ghost predicate DistinctIds(d: Digests, s: Shard, offset: nat, a: seq<byte>, b: seq<byte>)
  {
    d.chunkId(offset, a) == d.chunkId(offset, b) ==> a == b
  }

  /** The ids the source computes tell chunk contents apart wherever the hash tells their two
      preimages apart. */
  lemma HashTellsChunksApart(h: HexHash, s: Shard, offset: nat, a: seq<byte>, b: seq<byte>)
    requires FitsOffset(offset) && NulFree(s.manifest) && NulFree(s.rfilename)
    requires var p, q := Preimage(s.manifest, s.rfilename, offset, a), Preimage(s.manifest, s.rfilename, offset, b);
             h(p) == h(q) ==> p == q
    ensures DistinctIds(DigestsOf(h, s), s, offset, a, b)
  {
    if ChunkId(h, s.manifest, s.rfilename, offset, a) == ChunkId(h, s.manifest, s.rfilename, offset, b) {
      PreimageInjective(s.manifest, s.rfilename, offset, a, s.manifest, s.rfilename, offset, b);
    }
  }

  /** Poison is not cured by trying again: a run leaves a file and a sidecar that are poisoned too, and
      if it went through, the next run with an honest seeder fetches nothing. */
  lemma PoisonPersists(d: Digests, s: Shard, source: seq<byte>, tries: nat, t: Transfer)
    requires HonestSetting(s, source, t, tries) && Synced(t) && t.requests == []
    requires Poisoned(d, s, source, t)
    ensures var again := Resumed(s, Loop(d, s, SeederAsPeer(d, s, source), tries, 0, t).1);
            && Poisoned(d, s, source, again)
            && (MissingFit(d, s, t, 0) ==>
                  Loop(d, s, SeederAsPeer(d, s, source), tries, 0, again).1.requests == [])
  {
    var peer := SeederAsPeer(d, s, source);
    var u := Loop(d, s, peer, tries, 0, t).1;
    var again := Resumed(s, u);
    var end := LoopEffect(d, s, peer, tries, 0, t);
    HonestTransfer(d, s, source, tries, t);
    var j: nat :| IsChunk(s, j) && IntactAt(d, s, t, j)
             && Chunk(s, t.data, Offset(s, j)) != Chunk(s, source, Offset(s, j));
    assert SameChunk(s, t, u, j);
    assert IntactAt(d, s, again, j) && Chunk(s, again.data, Offset(s, j)) != Chunk(s, source, Offset(s, j));
    if MissingFit(d, s, t, 0) {
      forall j: nat | IsChunk(s, j)
        ensures IntactAt(d, s, again, j)
      {
        if j >= end {
          OffsetsOrdered(s, end, j);
        }
        assert IntactAt(d, s, u, j);
      }
      NothingMissing(d, s, again, 0);
      HonestTransfer(d, s, source, tries, again);
    }
  }

  lemma OffsetsOrdered(s: Shard, i: nat, j: nat)
    requires i <= j
    ensures Offset(s, i) <= Offset(s, j)
  {
    if i < j {
      OffsetsApart(s, i, j);
    }
  }

  lemma {:induction false} NothingMissing(d: Digests, s: Shard, t: Transfer, idx: nat)
    requires Started(s, t)
    requires forall j: nat :: IsChunk(s, j) ==> IntactAt(d, s, t, j)
    ensures MissingOffsets(d, s, t, idx) == []
    decreases s.sizeBytes - Offset(s, idx)
  {
    if IsChunk(s, idx) {
      assert Offset(s, idx + 1) == Offset(s, idx) + s.chunkBytes;
      NothingMissing(d, s, t, idx + 1);
    }
  }

  // ---- conservation --------------------------------------------------------------------------------

  function Requests(offsets: seq<nat>): (r: seq<Request>)
    ensures |r| == |offsets|
    ensures forall k :: 0 <= k < |r| ==> r[k] == Request(offsets[k])
  {
    seq(|offsets|, k requires 0 <= k < |offsets| => Request(offsets[k]))
  }

  ghost function KeptBytes(d: Digests, s: Shard, t: Transfer, idx: nat): nat
    requires Started(s, t)
    decreases s.sizeBytes - Offset(s, idx)
  {
    if !IsChunk(s, idx) then 0
    else
      assert Offset(s, idx + 1) == Offset(s, idx) + s.chunkBytes;
      (if IntactAt(d, s, t, idx) then Length(s, Offset(s, idx)) else 0) + KeptBytes(d, s, t, idx + 1)
  }

  lemma SeedOneMore(d: Digests, s: Shard, source: seq<byte>, i: nat, rest: seq<nat>)
    requires s.chunkBytes > 0 && |source| == s.sizeBytes && IsChunk(s, i) && ChunkFits(s, i)
    ensures var less, more := Seed(d, s, source, Requests(rest)), Seed(d, s, source, Requests([Offset(s, i)] + rest));
            && more.bytes == Length(s, Offset(s, i)) + less.bytes
            && |more.replies| == 1 + |less.replies| && more.raised == less.raised
  {
    SeederServesChunk(d, s, source, i);
    assert Requests([Offset(s, i)] + rest)[1..] == Requests(rest);
  }

  lemma {:induction false} SeederServesMissing(d: Digests, s: Shard, source: seq<byte>, t: Transfer, idx: nat)
    requires Started(s, t) && |source| == s.sizeBytes && MissingFit(d, s, t, idx)
    ensures var missing := MissingOffsets(d, s, t, idx);
            var served := Seed(d, s, source, Requests(missing));
            && |served.replies| == |missing| && !served.raised
            && served.bytes + KeptBytes(d, s, t, idx)
               == if IsChunk(s, idx) then s.sizeBytes - Offset(s, idx) else 0
    decreases s.sizeBytes - Offset(s, idx)
  {
    if IsChunk(s, idx) {
      assert Offset(s, idx + 1) == Offset(s, idx) + s.chunkBytes;
      SeederServesMissing(d, s, source, t, idx + 1);
      var rest := MissingOffsets(d, s, t, idx + 1);
      if IntactAt(d, s, t, idx) {
        assert [] + rest == rest;
      } else {
        SeedOneMore(d, s, source, idx, rest);
      }
    }
  }

  /** The two loops together: the seeder answers every request of the leecher, and the bytes it
      serves are the file's size less the bytes the leecher kept. */
  lemma ServedPlusKeptIsSize(d: Digests, s: Shard, source: seq<byte>, tries: nat, t: Transfer)
    requires HonestSetting(s, source, t, tries) && t.requests == [] && MissingFit(d, s, t, 0)
    ensures var requests := Loop(d, s, SeederAsPeer(d, s, source), tries, 0, t).1.requests;
            var served := Seed(d, s, source, Requests(requests));
            && |served.replies| == |requests| && !served.raised
            && served.bytes + KeptBytes(d, s, t, 0) == s.sizeBytes
  {
    HonestTransfer(d, s, source, tries, t);
    SeederServesMissing(d, s, source, t, 0);
    assert Offset(s, 0) == 0;
  }
}
