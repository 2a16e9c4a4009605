/** Content addressing: a chunk id binds manifest, path, offset and bytes. */
module Content {
  import opened Bytes

  /** A digest in its 64 hexadecimal characters. */
  type HexDigest = s: seq<byte> | |s| == 64 witness seq(64, _ => 0)

  type HexHash = seq<byte> -> HexDigest

  const NUL: seq<byte> := [0]

  /** Offsets are 8-byte fields; to_bytes raises beyond them. */
  predicate FitsOffset(offset: nat) {
    offset < Span(8)
  }

  /** The string that is hashed: the UTF-8 manifest hash and path, the offset and the bytes, with a
      NUL after each of the first three. */
  function Preimage(manifest: seq<byte>, path: seq<byte>, offset: nat, chunk: seq<byte>): seq<byte>
    requires FitsOffset(offset)
  {
    manifest + (NUL + (path + (NUL + (ToBE(8, offset) + (NUL + chunk)))))
  }

  function ChunkId(h: HexHash, manifest: seq<byte>, path: seq<byte>, offset: nat, chunk: seq<byte>): HexDigest
    requires FitsOffset(offset)
  {
    h(Preimage(manifest, path, offset, chunk))
  }

  predicate VerifyChunk(h: HexHash, expected: HexDigest, manifest: seq<byte>, path: seq<byte>, offset: nat,
                        chunk: seq<byte>)
    requires FitsOffset(offset)
  {
    ChunkId(h, manifest, path, offset, chunk) == expected
  }

  ghost predicate NulFree(s: seq<byte>) {
    forall i :: 0 <= i < |s| ==> s[i] != 0
  }

  lemma FirstNul(a: seq<byte>, x: seq<byte>)
    requires NulFree(a)
    ensures var s := a + (NUL + x); s[|a|] == 0 && forall i :: 0 <= i < |a| ==> s[i] != 0
  {
  }

  lemma FirstNulSplits(a: seq<byte>, x: seq<byte>, b: seq<byte>, y: seq<byte>)
    requires NulFree(a) && NulFree(b) && a + (NUL + x) == b + (NUL + y)
    ensures a == b && x == y
  {
    FirstNul(a, x);
    FirstNul(b, y);
    SplitConcat(a, NUL + x, b, NUL + y);
    SplitConcat(NUL, x, NUL, y);
  }

  /** Equal preimages come from equal manifest, path, offset and bytes. */
  lemma PreimageInjective(manifest: seq<byte>, path: seq<byte>, offset: nat, chunk: seq<byte>,
                          manifest': seq<byte>, path': seq<byte>, offset': nat, chunk': seq<byte>)
    requires FitsOffset(offset) && FitsOffset(offset')
    requires NulFree(manifest) && NulFree(path) && NulFree(manifest') && NulFree(path')
    requires Preimage(manifest, path, offset, chunk) == Preimage(manifest', path', offset', chunk')
    ensures manifest == manifest' && path == path' && offset == offset' && chunk == chunk'
  {
    var tail, tail' := ToBE(8, offset) + (NUL + chunk), ToBE(8, offset') + (NUL + chunk');
    FirstNulSplits(manifest, path + (NUL + tail), manifest', path' + (NUL + tail'));
    FirstNulSplits(path, tail, path', tail');
    SplitConcat(ToBE(8, offset), NUL + chunk, ToBE(8, offset'), NUL + chunk');
    SplitConcat(NUL, chunk, NUL, chunk');
    FromToBE(8, offset);
    FromToBE(8, offset');
  }

  /** Without that condition positions can be confused: a NUL may be read as part of the path or as
      the end of the manifest hash. */
  lemma NulMakesAmbiguous(a: seq<byte>, b: seq<byte>, c: seq<byte>, offset: nat, chunk: seq<byte>)
    requires FitsOffset(offset)
    ensures Preimage(a + NUL + b, c, offset, chunk) == Preimage(a, b + NUL + c, offset, chunk)
    ensures a + NUL + b != a
  {
    assert |a + NUL + b| > |a|;
  }

  lemma SplitAtNul(s: seq<byte>)
    requires !NulFree(s)
    ensures exists a, b :: s == a + (NUL + b) && |a| < |s|
  {
    var i :| 0 <= i < |s| && s[i] == 0;
    assert s == s[..i] + (NUL + s[i + 1..]);
  }

  /** Another manifest and path, at the same offset and with the same bytes. */
  ghost predicate HasDouble(manifest: seq<byte>, path: seq<byte>, offset: nat, chunk: seq<byte>)
    requires FitsOffset(offset)
  {
    exists m, p :: (m != manifest || p != path)
              && Preimage(m, p, offset, chunk) == Preimage(manifest, path, offset, chunk)
  }

  lemma SuffixesCancel(a: seq<byte>, b: seq<byte>, tail: seq<byte>)
    requires a + tail == b + tail
    ensures a == b
  {
    assert a == (a + tail)[..|a|] && b == (b + tail)[..|b|];
  }

  lemma SamePrefix(m: seq<byte>, p: seq<byte>, m': seq<byte>, p': seq<byte>, offset: nat, chunk: seq<byte>)
    requires FitsOffset(offset)
    ensures Preimage(m, p, offset, chunk) == Preimage(m', p', offset, chunk) <==> m + (NUL + p) == m' + (NUL + p')
  {
    var tail := NUL + (ToBE(8, offset) + (NUL + chunk));
    assert Preimage(m, p, offset, chunk) == (m + (NUL + p)) + tail;
    assert Preimage(m', p', offset, chunk) == (m' + (NUL + p')) + tail;
    if Preimage(m, p, offset, chunk) == Preimage(m', p', offset, chunk) {
      SuffixesCancel(m + (NUL + p), m' + (NUL + p'), tail);
    }
  }

  /** A position is told apart from every other one with the same offset and bytes exactly when neither
      its manifest hash nor its path contains a NUL. */
  lemma UnambiguousIffNulFree(manifest: seq<byte>, path: seq<byte>, offset: nat, chunk: seq<byte>)
    requires FitsOffset(offset)
    ensures !HasDouble(manifest, path, offset, chunk) <==> NulFree(manifest) && NulFree(path)
  {
    if !NulFree(manifest) {
      SplitAtNul(manifest);
      var a, b :| manifest == a + (NUL + b) && |a| < |manifest|;
      var p := b + (NUL + path);
      assert manifest + (NUL + path) == a + (NUL + p);
      SamePrefix(a, p, manifest, path, offset, chunk);
      assert a != manifest;
      assert HasDouble(manifest, path, offset, chunk);
    } else if !NulFree(path) {
      SplitAtNul(path);
      var a, b :| path == a + (NUL + b) && |a| < |path|;
      var m := manifest + (NUL + a);
      assert manifest + (NUL + path) == m + (NUL + b);
      SamePrefix(m, b, manifest, path, offset, chunk);
      assert |m| > |manifest|;
      assert HasDouble(manifest, path, offset, chunk);
    } else {
      forall m, p | Preimage(m, p, offset, chunk) == Preimage(manifest, path, offset, chunk)
        ensures m == manifest && p == path
      {
        SamePrefix(m, p, manifest, path, offset, chunk);
        OnlyOneNul(m, p, manifest, path);
      }
    }
  }

  lemma OnlyOneNul(m: seq<byte>, p: seq<byte>, manifest: seq<byte>, path: seq<byte>)
    requires NulFree(manifest) && NulFree(path) && m + (NUL + p) == manifest + (NUL + path)
    ensures m == manifest && p == path
  {
    var s, t := m + (NUL + p), manifest + (NUL + path);
    assert s[|m|] == 0;
    assert forall i :: 0 <= i < |t| && t[i] == 0 ==> i == |manifest|;
    SplitConcat(m, NUL + p, manifest, NUL + path);
    SplitConcat(NUL, p, NUL, path);
  }

  /** An id computed for one chunk accepts another one only if it is the same bytes at the same
      position, or the two preimages collide under the hash. */
  lemma VerifyAcceptsOnlyTheChunk(h: HexHash,
                                  manifest: seq<byte>, path: seq<byte>, offset: nat, chunk: seq<byte>,
                                  manifest': seq<byte>, path': seq<byte>, offset': nat, chunk': seq<byte>)
    requires FitsOffset(offset) && FitsOffset(offset')
    requires NulFree(manifest) && NulFree(path) && NulFree(manifest') && NulFree(path')
    requires Preimage(manifest, path, offset, chunk) != Preimage(manifest', path', offset', chunk') ==>
               h(Preimage(manifest, path, offset, chunk)) != h(Preimage(manifest', path', offset', chunk'))
    ensures VerifyChunk(h, ChunkId(h, manifest, path, offset, chunk), manifest', path', offset', chunk')
       <==> manifest == manifest' && path == path' && offset == offset' && chunk == chunk'
  {
    if VerifyChunk(h, ChunkId(h, manifest, path, offset, chunk), manifest', path', offset', chunk') {
      PreimageInjective(manifest, path, offset, chunk, manifest', path', offset', chunk');
    }
  }

  lemma PartBeforeNul(a: seq<byte>, x: seq<byte>)
    ensures var s := a + (NUL + x);
            |s| == |a| + 1 + |x| && s[..|a|] == a && s[|a|] == 0 && s[|a| + 1..] == x
  {
    var s := a + (NUL + x);
    assert s[|a|..] == NUL + x;
    assert s[|a| + 1..] == s[|a|..][1..] == (NUL + x)[1..] == x;
  }

  lemma PartAt(s: seq<byte>, at: nat, a: seq<byte>, x: seq<byte>)
    requires at <= |s| && s[at..] == a + (NUL + x)
    ensures |s| == at + |a| + 1 + |x|
    ensures s[at..at + |a|] == a && s[at + |a|] == 0 && s[at + |a| + 1..] == x
  {
    var tail := s[at..];
    PartBeforeNul(a, x);
    assert s[at..at + |a|] == tail[..|a|] && s[at + |a|] == tail[|a|];
    assert s[at + |a| + 1..] == tail[|a| + 1..];
  }

  /** Where the parts of the hashed string stand: the manifest hash, the path, the offset in eight bytes, and
      the chunk, with a NUL between them. */
  lemma PreimageParts(manifest: seq<byte>, path: seq<byte>, offset: nat, chunk: seq<byte>)
    requires FitsOffset(offset)
    ensures var s, m, p := Preimage(manifest, path, offset, chunk), |manifest|, |path|;
            && |s| == m + 1 + p + 1 + 8 + 1 + |chunk|
            && s[..m] == manifest && s[m] == 0
            && s[m + 1..m + 1 + p] == path && s[m + 1 + p] == 0
            && s[m + 1 + p + 1..m + 1 + p + 1 + 8] == ToBE(8, offset) && s[m + 1 + p + 1 + 8] == 0
            && s[m + 1 + p + 1 + 8 + 1..] == chunk
  {
    var number := ToBE(8, offset);
    PartsOfThree(manifest, path, number, chunk);
  }

  lemma PartsOfThree(a: seq<byte>, b: seq<byte>, c: seq<byte>, d: seq<byte>)
    ensures var s, m, p, n := a + (NUL + (b + (NUL + (c + (NUL + d))))), |a|, |b|, |c|;
            && |s| == m + 1 + p + 1 + n + 1 + |d|
            && s[..m] == a && s[m] == 0 && s[m + 1..m + 1 + p] == b && s[m + 1 + p] == 0
            && s[m + 1 + p + 1..m + 1 + p + 1 + n] == c && s[m + 1 + p + 1 + n] == 0
            && s[m + 1 + p + 1 + n + 1..] == d
  {
    var last := c + (NUL + d);
    var rest := b + (NUL + last);
    var s := a + (NUL + rest);
    assert s[0..] == s;
    PartAt(s, 0, a, rest);
    PartAt(s, |a| + 1, b, last);
    PartAt(s, |a| + 1 + |b| + 1, c, d);
  }
}
