/** What a verified chain means, apart from the order in which verify_block checks it. */
module ChainSafety {
  import opened Bytes
  import opened Merkle
  import opened Receipts
  import opened Rounding
  import opened Ledger

  // ---- a reference definition of a sound chain ------------------------------------------------

  ghost predicate Backed(c: Crypto, e: LedgerEntry) {
    && e.receipt.Some?
    && var sr := e.receipt.value;
    && c.keyParses(sr.key)
    && c.verifies(sr.key, c.receiptJson(sr.receipt), sr.signature)
    && c.nodeIdOf(sr.key) == sr.receipt.nodeId == e.body.account
    && sr.receipt.receiptId == e.body.refReceiptId
    && -CREDIT_TOLERANCE <= e.body.delta - CreditForReceipt(sr) <= CREDIT_TOLERANCE
  }

  /** Only receipt-backed work with a nonce earns; everything else may only take credit away. */
  ghost predicate SoundEntry(c: Crypto, e: LedgerEntry) {
    match e.body.reason
    case VerifiedWork => e.body.challengeNonce != "" && Backed(c, e)
    case Consumption => e.body.delta < 0.0
    case Correction => e.body.delta <= 0.0
    case OtherReason(_) => false
  }

  ghost predicate SoundHeader(c: Crypto, blocks: seq<Block>, i: nat)
    requires i < |blocks|
  {
    var b := blocks[i];
    && b.header.protocolVersion == PROTOCOL_VERSION
    && b.header.index == i
    && b.header.prevHash == (if i == 0 then GENESIS_PREV else BlockHash(c, blocks[i - 1]))
    && b.header.entryCount == |b.entries|
    && b.header.merkleRoot == MerkleRoot(c, b.entries)
    && c.keyParses(b.producerKey)
    && c.nodeIdOf(b.producerKey) == b.header.producer
    && c.verifies(b.producerKey, c.headerJson(b.header), b.producerSignature)
  }

  /** The nonces of the verified work, in order. */
  function WorkNonces(entries: seq<LedgerEntry>): seq<string> {
    if entries == [] then []
    else (if entries[0].body.reason == VerifiedWork then [entries[0].body.challengeNonce] else [])
         + WorkNonces(entries[1..])
  }

  ghost predicate Distinct<T>(s: seq<T>) {
    forall i, j :: 0 <= i < j < |s| ==> s[i] != s[j]
  }

  ghost predicate SoundChain(c: Crypto, blocks: seq<Block>) {
    && (forall i :: 0 <= i < |blocks| ==> SoundHeader(c, blocks, i))
    && SoundEntries(c, Entries(blocks))
  }

  lemma {:induction false} WorkNoncesConcat(a: seq<LedgerEntry>, b: seq<LedgerEntry>)
    ensures WorkNonces(a + b) == WorkNonces(a) + WorkNonces(b)
  {
    if a == [] {
      assert a + b == b;
    } else {
      assert (a + b)[1..] == a[1..] + b;
      WorkNoncesConcat(a[1..], b);
    }
  }

  lemma {:induction false} WorkNoncesAreNonces(entries: seq<LedgerEntry>)
    ensures forall n :: n in WorkNonces(entries) <==> n in Nonces(entries)
  {
    if entries != [] {
      WorkNoncesAreNonces(entries[1..]);
      assert entries == [entries[0]] + entries[1..];
      NoncesConcat([entries[0]], entries[1..]);
      NoncesSnoc([], entries[0]);
      assert [] + [entries[0]] == [entries[0]];
    }
  }

  lemma DistinctConcat<T>(a: seq<T>, b: seq<T>)
    ensures Distinct(a + b) <==> Distinct(a) && Distinct(b) && forall x :: x in b ==> x !in a
  {
    var s := a + b;
    if Distinct(s) {
      forall i, j | 0 <= i < j < |a|
        ensures a[i] != a[j]
      {
        assert s[i] != s[j];
      }
      forall i, j | 0 <= i < j < |b|
        ensures b[i] != b[j]
      {
        assert s[|a| + i] != s[|a| + j];
      }
      forall i, j | 0 <= i < |a| && 0 <= j < |b|
        ensures a[i] != b[j]
      {
        assert s[i] != s[|a| + j];
      }
    } else {
      var i, j :| 0 <= i < j < |s| && s[i] == s[j];
      assert s[j] == if j < |a| then a[j] else b[j - |a|];
      assert s[i] == if i < |a| then a[i] else b[i - |a|];
      if i < |a| <= j {
        assert a[i] in a && b[j - |a|] in b;
      }
    }
  }

  lemma EntryFaultIff(c: Crypto, e: LedgerEntry, used: set<string>)
    ensures EntryFault(c, e, used, true).None? <==> SoundEntry(c, e) && NonceOf(e) !! used
  {
  }

  /** A caller that asks for no receipts still gets the rules on earning, spending and nonces. */
  lemma EntryFaultIffWithoutReceipts(c: Crypto, e: LedgerEntry, used: set<string>)
    ensures EntryFault(c, e, used, false).None? <==>
              match e.body.reason
              case VerifiedWork => e.body.challengeNonce != "" && e.body.challengeNonce !in used
              case Consumption => e.body.delta < 0.0
              case Correction => e.body.delta <= 0.0
              case OtherReason(_) => false
  {
  }

  lemma {:induction false} EntriesFaultIff(c: Crypto, entries: seq<LedgerEntry>, used: set<string>)
    ensures EntriesFault(c, entries, used, true).None? <==>
              && (forall e :: e in entries ==> SoundEntry(c, e))
              && Distinct(WorkNonces(entries))
              && Nonces(entries) !! used
  {
    if entries != [] {
      var e, rest := entries[0], entries[1..];
      assert entries == [e] + rest;
      EntryFaultIff(c, e, used);
      EntriesFaultIff(c, rest, used + NonceOf(e));
      var first := if e.body.reason == VerifiedWork then [e.body.challengeNonce] else [];
      DistinctConcat(first, WorkNonces(rest));
      WorkNoncesAreNonces(rest);
      NoncesConcat([e], rest);
      assert Nonces([e]) == NonceOf(e) by {
        NoncesSnoc([], e);
        assert [] + [e] == [e];
      }
      assert forall x :: x in entries <==> x == e || x in rest;
    }
  }

  lemma HeaderFaultIff(c: Crypto, blocks: seq<Block>, b: Block)
    ensures HeaderFault(c, b, HeadHash(c, blocks), |blocks|).None?
       <==> SoundHeader(c, blocks + [b], |blocks|)
  {
  }

  lemma SoundHeadersSnoc(c: Crypto, blocks: seq<Block>, b: Block)
    ensures (forall i :: 0 <= i <= |blocks| ==> SoundHeader(c, blocks + [b], i))
       <==> (forall i :: 0 <= i < |blocks| ==> SoundHeader(c, blocks, i))
            && SoundHeader(c, blocks + [b], |blocks|)
  {
    assert forall i :: 0 <= i < |blocks| ==>
             (SoundHeader(c, blocks + [b], i) <==> SoundHeader(c, blocks, i));
  }

  ghost predicate SoundEntries(c: Crypto, entries: seq<LedgerEntry>) {
    (forall e :: e in entries ==> SoundEntry(c, e)) && Distinct(WorkNonces(entries))
  }

  lemma SoundEntriesConcat(c: Crypto, before: seq<LedgerEntry>, entries: seq<LedgerEntry>)
    ensures SoundEntries(c, before + entries)
       <==> SoundEntries(c, before) && EntriesFault(c, entries, Nonces(before), true).None?
  {
    EntriesFaultIff(c, entries, Nonces(before));
    WorkNoncesConcat(before, entries);
    DistinctConcat(WorkNonces(before), WorkNonces(entries));
    WorkNoncesAreNonces(before);
    WorkNoncesAreNonces(entries);
    assert forall x :: x in before + entries <==> x in before || x in entries;
  }

  /** Full verification accepts exactly the sound chains: linked, signed, backed, and with every
      nonce of verified work used once in the whole chain. */
  lemma {:induction false} VerifiedIffSound(c: Crypto, blocks: seq<Block>)
    ensures ChainFault(c, blocks).None? <==> SoundChain(c, blocks)
    decreases |blocks|
  {
    if blocks != [] {
      var shorter, b := blocks[..|blocks| - 1], blocks[|blocks| - 1];
      assert blocks == shorter + [b];
      VerifiedIffSound(c, shorter);
      HeaderFaultIff(c, shorter, b);
      SoundHeadersSnoc(c, shorter, b);
      SoundEntriesConcat(c, Entries(shorter), b.entries);
    }
  }

  // ---- the head hash binds the whole chain ----------------------------------------------------

  function Bodies(entries: seq<LedgerEntry>): (r: seq<EntryBody>)
    ensures |r| == |entries|
    ensures forall i :: 0 <= i < |r| ==> r[i] == entries[i].body
  {
    seq(|entries|, i requires 0 <= i < |entries| => entries[i].body)
  }

  ghost function BlockInputs(c: Crypto, b: Block): set<seq<byte>> {
    {c.headerJson(b.header)}
    + (set e | e in b.entries :: c.entryJson(e.body))
    + NodeInputs(c.hash, EntryHashes(c, b.entries))
  }

  /** What was hashed to verify some blocks: the strings, and the objects that were spelt as JSON. */
  datatype Hashed = Hashed(inputs: set<seq<byte>>, headers: set<BlockHeader>, bodies: set<EntryBody>)

  /** No two of these strings share a digest, and no two of these objects their canonical JSON. */
  ghost predicate NoClash(c: Crypto, w: Hashed) {
    && DistinctOn(c.hash, w.inputs)
    && (forall a, b :: a in w.headers && b in w.headers && c.headerJson(a) == c.headerJson(b) ==> a == b)
    && (forall a, b :: a in w.bodies && b in w.bodies && c.entryJson(a) == c.entryJson(b) ==> a == b)
  }

  ghost predicate BlockIn(c: Crypto, b: Block, w: Hashed) {
    && BlockInputs(c, b) <= w.inputs
    && b.header in w.headers
    && forall e :: e in b.entries ==> e.body in w.bodies
  }

  ghost predicate ChainIn(c: Crypto, blocks: seq<Block>, w: Hashed) {
    forall b :: b in blocks ==> BlockIn(c, b, w)
  }

  /** The header states the predecessor and commits to the entries. */
  ghost predicate Committed(c: Crypto, b: Block, prev: Digest) {
    && b.header.prevHash == prev
    && b.header.entryCount == |b.entries|
    && b.header.merkleRoot == MerkleRoot(c, b.entries)
  }

  /** Blocks with the same hash have the same header and hold the same entries, up to the receipts
      they carry. */
  lemma BlockHashBinds(c: Crypto, a: Block, b: Block, w: Hashed)
    requires NoClash(c, w) && BlockIn(c, a, w) && BlockIn(c, b, w)
    requires Committed(c, a, a.header.prevHash) && Committed(c, b, b.header.prevHash)
    requires BlockHash(c, a) == BlockHash(c, b)
    ensures a.header == b.header && Bodies(a.entries) == Bodies(b.entries)
  {
    assert c.headerJson(a.header) in BlockInputs(c, a) && c.headerJson(b.header) in BlockInputs(c, b);
    RootBinds(c.hash, EntryHashes(c, a.entries), EntryHashes(c, b.entries), w.inputs);
    forall i | 0 <= i < |a.entries|
      ensures a.entries[i].body == b.entries[i].body
    {
      assert c.entryJson(a.entries[i].body) in BlockInputs(c, a);
      assert c.entryJson(b.entries[i].body) in BlockInputs(c, b);
      assert a.entries[i].body in w.bodies && b.entries[i].body in w.bodies;
      assert EntryHashes(c, a.entries)[i] == EntryHashes(c, b.entries)[i];
    }
  }

  ghost predicate SameUpToReceipts(a: seq<Block>, b: seq<Block>) {
    && |a| == |b|
    && forall i :: 0 <= i < |a| ==> a[i].header == b[i].header
                                    && Bodies(a[i].entries) == Bodies(b[i].entries)
  }

  lemma SameSnoc(a: seq<Block>, b: seq<Block>)
    requires |a| == |b| > 0
    requires SameUpToReceipts(a[..|a| - 1], b[..|b| - 1])
    requires a[|a| - 1].header == b[|b| - 1].header && Bodies(a[|a| - 1].entries) == Bodies(b[|b| - 1].entries)
    ensures SameUpToReceipts(a, b)
  {
    forall i | 0 <= i < |a| - 1
      ensures a[i].header == b[i].header && Bodies(a[i].entries) == Bodies(b[i].entries)
    {
      assert a[i] == a[..|a| - 1][i] && b[i] == b[..|b| - 1][i];
    }
  }

  lemma LastBlock(c: Crypto, blocks: seq<Block>)
    requires ChainFault(c, blocks).None? && blocks != []
    ensures var n := |blocks| - 1;
            && ChainFault(c, blocks[..n]).None?
            && Committed(c, blocks[n], HeadHash(c, blocks[..n]))
            && HeadHash(c, blocks) == BlockHash(c, blocks[n])
  {
  }

  /** Equal height and equal head hash mean the same history: every header, and every entry up to
      the receipt that backs it. */
  lemma {:induction false} HeadBindsHistory(c: Crypto, a: seq<Block>, b: seq<Block>, w: Hashed)
    requires NoClash(c, w) && ChainIn(c, a, w) && ChainIn(c, b, w)
    requires ChainFault(c, a).None? && ChainFault(c, b).None?
    requires |a| == |b| && HeadHash(c, a) == HeadHash(c, b)
    ensures SameUpToReceipts(a, b)
    decreases |a|
  {
    if a != [] {
      var n := |a| - 1;
      LastBlock(c, a);
      LastBlock(c, b);
      BlockHashBinds(c, a[n], b[n], w);
      HeadBindsHistory(c, a[..n], b[..n], w);
      SameSnoc(a, b);
    }
  }

  // ---- fork choice ---------------------------------------------------------------------------

  datatype ForkChoice = Picked(blocks: seq<Block>) | NoValidChain | RaisedMalformedKey

  /** The sort key: higher chains first, then the smaller head hash. */
  predicate Better(c: Crypto, a: seq<Block>, b: seq<Block>) {
    |a| > |b| || (|a| == |b| && FromBE(HeadHash(c, a)) < FromBE(HeadHash(c, b)))
  }

  ghost predicate IsBest(c: Crypto, chains: seq<seq<Block>>, best: seq<Block>) {
    && best in chains && ChainFault(c, best).None?
    && forall other :: other in chains && ChainFault(c, other).None? ==> !Better(c, other, best)
  }

  ghost function Lists(chains: seq<Chain>): (r: seq<seq<Block>>)
    reads chains
    ensures |r| == |chains|
    ensures forall i :: 0 <= i < |chains| ==> r[i] == chains[i].blocks
  {
    if chains == [] then [] else [chains[0].blocks] + Lists(chains[1..])
  }

  /** Candidate k is what a stable sort puts first: none is better, and the ones before it are worse. */
  ghost predicate FirstBest(c: Crypto, valid: seq<seq<Block>>, k: nat) {
    && k < |valid|
    && (forall j :: 0 <= j < |valid| ==> !Better(c, valid[j], valid[k]))
    && (forall j :: 0 <= j < k ==> Better(c, valid[k], valid[j]))
  }

  lemma DisplacedBest(c: Crypto, valid: seq<seq<Block>>, k: nat, i: nat)
    requires k < i < |valid| && Better(c, valid[i], valid[k])
    requires forall j :: 0 <= j < i ==> !Better(c, valid[j], valid[k])
    ensures forall j :: 0 <= j < i ==> Better(c, valid[i], valid[j]) && !Better(c, valid[j], valid[i])
  {
    forall j | 0 <= j < i
      ensures Better(c, valid[i], valid[j]) && !Better(c, valid[j], valid[i])
    {
      assert !Better(c, valid[j], valid[k]);
    }
  }

  /** The first of the sorted candidates. */
  method FirstInOrder(c: Crypto, valid: seq<seq<Block>>) returns (k: nat)
    requires valid != []
    ensures FirstBest(c, valid, k)
  {
    k := 0;
    for i := 1 to |valid|
      invariant k < i
      invariant forall j :: 0 <= j < i ==> !Better(c, valid[j], valid[k])
      invariant forall j :: 0 <= j < k ==> Better(c, valid[k], valid[j])
    {
      if Better(c, valid[i], valid[k]) {
        DisplacedBest(c, valid, k, i);
        k := i;
      }
    }
  }

  /** The candidates that verify, in order; None where verifying one of them raises. */
  function Survivors(c: Crypto, lists: seq<seq<Block>>): Option<seq<seq<Block>>> {
    if lists == [] then Some([])
    else
      var before := Survivors(c, lists[..|lists| - 1]);
      var fault := ChainFault(c, lists[|lists| - 1]);
      if before.None? || fault == Some(MalformedKey) then None
      else Some(before.value + if fault.None? then [lists[|lists| - 1]] else [])
  }

  // What it takes for verification to raise: a key that does not parse is met only if nothing that is
  // looked at before it is at fault.

  ghost predicate ReachesProducerKey(c: Crypto, b: Block, prevHash: Digest, index: nat) {
    && b.header.protocolVersion == PROTOCOL_VERSION
    && b.header.index == index
    && b.header.prevHash == prevHash
    && b.header.entryCount == |b.entries|
    && b.header.merkleRoot == MerkleRoot(c, b.entries)
  }

  /** Entry j is verified work whose receipt carries a key that does not parse, and no entry before it
      is at fault. */
  ghost predicate BadKeyAt(c: Crypto, entries: seq<LedgerEntry>, used: set<string>, j: nat)
    requires j < |entries|
  {
    var e := entries[j];
    && e.body.reason == VerifiedWork && e.receipt.Some? && !c.keyParses(e.receipt.value.key)
    && EntriesFault(c, entries[..j], used, true).None?
  }

  ghost predicate BadKeyInBlock(c: Crypto, b: Block, prevHash: Digest, index: nat, used: set<string>) {
    || (ReachesProducerKey(c, b, prevHash, index) && !c.keyParses(b.producerKey))
    || (HeaderFault(c, b, prevHash, index).None?
        && exists j :: 0 <= j < |b.entries| && BadKeyAt(c, b.entries, used, j))
  }

  ghost predicate BadKeyInChain(c: Crypto, blocks: seq<Block>, k: nat)
    requires k < |blocks|
  {
    var before := blocks[..k];
    ChainFault(c, before).None? && BadKeyInBlock(c, blocks[k], HeadHash(c, before), k, Nonces(Entries(before)))
  }

  /** Some block of the chain holds such a key, on top of blocks that verify. */
  ghost predicate MeetsBadKey(c: Crypto, blocks: seq<Block>) {
    exists k :: 0 <= k < |blocks| && BadKeyInChain(c, blocks, k)
  }

  ghost predicate SomeMeetsBadKey(c: Crypto, lists: seq<seq<Block>>) {
    exists l :: l in lists && MeetsBadKey(c, l)
  }

  lemma EntriesFaultHead(c: Crypto, entries: seq<LedgerEntry>, used: set<string>, j: nat)
    requires 0 < j <= |entries|
    ensures var fault := EntryFault(c, entries[0], used, true);
            EntriesFault(c, entries[..j], used, true)
            == if fault.Some? then fault
               else EntriesFault(c, entries[1..][..j - 1], used + NonceOf(entries[0]), true)
  {
    assert entries[..j][1..] == entries[1..][..j - 1];
  }

  lemma {:induction false} EntriesRaiseIff(c: Crypto, entries: seq<LedgerEntry>, used: set<string>)
    ensures EntriesFault(c, entries, used, true) == Some(MalformedKey) <==>
              exists j :: 0 <= j < |entries| && BadKeyAt(c, entries, used, j)
  {
    if entries != [] {
      var e, rest, later := entries[0], entries[1..], used + NonceOf(entries[0]);
      EntriesRaiseIff(c, rest, later);
      forall j | 1 <= j < |entries|
        ensures BadKeyAt(c, entries, used, j) <==>
                  EntryFault(c, e, used, true).None? && BadKeyAt(c, rest, later, j - 1)
      {
        EntriesFaultHead(c, entries, used, j);
      }
      assert BadKeyAt(c, entries, used, 0) <==> EntryFault(c, e, used, true) == Some(MalformedKey);
      if j :| 0 <= j < |rest| && BadKeyAt(c, rest, later, j) {
        assert EntryFault(c, e, used, true).None? ==> BadKeyAt(c, entries, used, j + 1);
      }
    }
  }

  lemma BlockRaisesIff(c: Crypto, b: Block, prevHash: Digest, index: nat, used: set<string>)
    ensures BlockFault(c, b, prevHash, index, used, true) == Some(MalformedKey)
       <==> BadKeyInBlock(c, b, prevHash, index, used)
  {
    EntriesRaiseIff(c, b.entries, used);
  }

  lemma BadKeyInPrefix(c: Crypto, blocks: seq<Block>, n: nat, k: nat)
    requires k < n <= |blocks|
    ensures BadKeyInChain(c, blocks, k) <==> BadKeyInChain(c, blocks[..n], k)
  {
    assert blocks[..n][..k] == blocks[..k];
  }

  lemma LastBlockRaisesIff(c: Crypto, blocks: seq<Block>)
    requires blocks != []
    ensures var n := |blocks| - 1;
            ChainFault(c, blocks) == Some(MalformedKey)
            <==> ChainFault(c, blocks[..n]) == Some(MalformedKey) || BadKeyInChain(c, blocks, n)
  {
    var n := |blocks| - 1;
    BlockRaisesIff(c, blocks[n], HeadHash(c, blocks[..n]), n, Nonces(Entries(blocks[..n])));
  }

  /** Full verification raises exactly on the chains that hold a key which does not parse where
      verification gets to see it. */
  lemma {:induction false} ChainRaisesIff(c: Crypto, blocks: seq<Block>)
    ensures ChainFault(c, blocks) == Some(MalformedKey) <==> MeetsBadKey(c, blocks)
  {
    if blocks != [] {
      var n := |blocks| - 1;
      ChainRaisesIff(c, blocks[..n]);
      LastBlockRaisesIff(c, blocks);
      MeetsLast(c, blocks);
    }
  }

  lemma MeetsLast(c: Crypto, blocks: seq<Block>)
    requires blocks != []
    ensures var n := |blocks| - 1;
            MeetsBadKey(c, blocks) <==> MeetsBadKey(c, blocks[..n]) || BadKeyInChain(c, blocks, n)
  {
    var n := |blocks| - 1;
    forall k | 0 <= k < n
      ensures BadKeyInChain(c, blocks, k) <==> BadKeyInChain(c, blocks[..n], k)
    {
      BadKeyInPrefix(c, blocks, n, k);
    }
    MeetsSplit(c, blocks);
  }

  lemma MeetsSplit(c: Crypto, blocks: seq<Block>)
    requires blocks != []
    requires forall k :: 0 <= k < |blocks| - 1 ==>
               (BadKeyInChain(c, blocks, k) <==> BadKeyInChain(c, blocks[..|blocks| - 1], k))
    ensures var n := |blocks| - 1;
            MeetsBadKey(c, blocks) <==> MeetsBadKey(c, blocks[..n]) || BadKeyInChain(c, blocks, n)
  {
    var n := |blocks| - 1;
    if k :| 0 <= k < |blocks| && BadKeyInChain(c, blocks, k) {
      assert k < n ==> BadKeyInChain(c, blocks[..n], k);
    }
    if k :| 0 <= k < n && BadKeyInChain(c, blocks[..n], k) {
      assert BadKeyInChain(c, blocks, k);
    }
  }

  ghost predicate KeysParse(c: Crypto, blocks: seq<Block>) {
    forall b :: b in blocks ==>
      && c.keyParses(b.producerKey)
      && forall e :: e in b.entries && e.receipt.Some? ==> c.keyParses(e.receipt.value.key)
  }

  /** What a caller can check beforehand: if every key in the candidates parses, nothing raises. */
  lemma ParsingKeysNeverRaise(c: Crypto, lists: seq<seq<Block>>)
    requires forall l :: l in lists ==> KeysParse(c, l)
    ensures !SomeMeetsBadKey(c, lists)
  {
    forall l, k | l in lists && 0 <= k < |l|
      ensures !BadKeyInChain(c, l, k)
    {
      assert l[k] in l;
    }
  }

  lemma {:induction false} SurvivorsAre(c: Crypto, lists: seq<seq<Block>>)
    ensures Survivors(c, lists).None? <==> SomeMeetsBadKey(c, lists)
    ensures Survivors(c, lists).Some? ==>
              forall l :: l in Survivors(c, lists).value <==> l in lists && ChainFault(c, l).None?
  {
    if lists != [] {
      var shorter, last := lists[..|lists| - 1], lists[|lists| - 1];
      SurvivorsAre(c, shorter);
      ChainRaisesIff(c, last);
      assert forall l :: l in lists <==> l in shorter || l == last;
    }
  }

  /** Where the k-th surviving candidate stands among all. */
  ghost function Place(c: Crypto, lists: seq<seq<Block>>, k: nat): (i: nat)
    requires Survivors(c, lists).Some? && k < |Survivors(c, lists).value|
    ensures i < |lists| && lists[i] == Survivors(c, lists).value[k] && ChainFault(c, lists[i]).None?
  {
    var shorter := lists[..|lists| - 1];
    if k < |Survivors(c, shorter).value| then Place(c, shorter, k) else |lists| - 1
  }

  lemma {:induction false} PlacesInOrder(c: Crypto, lists: seq<seq<Block>>, k: nat, l: nat)
    requires Survivors(c, lists).Some? && k < l < |Survivors(c, lists).value|
    ensures Place(c, lists, k) < Place(c, lists, l)
  {
    var shorter := lists[..|lists| - 1];
    if l < |Survivors(c, shorter).value| {
      PlacesInOrder(c, shorter, k, l);
    }
  }

  lemma {:induction false} EveryValidHasAPlace(c: Crypto, lists: seq<seq<Block>>, i: nat) returns (k: nat)
    requires Survivors(c, lists).Some? && i < |lists| && ChainFault(c, lists[i]).None?
    ensures k < |Survivors(c, lists).value| && Place(c, lists, k) == i
  {
    var shorter := lists[..|lists| - 1];
    if i < |shorter| {
      k := EveryValidHasAPlace(c, shorter, i);
    } else {
      k := |Survivors(c, shorter).value|;
    }
  }

  /** Candidate i verifies, no candidate that verifies is higher, none of its height has a smaller head
      hash, and none before it has the same height and head hash. */
  ghost predicate LongestValid(c: Crypto, lists: seq<seq<Block>>, i: nat) {
    && i < |lists| && ChainFault(c, lists[i]).None?
    && (forall j :: 0 <= j < |lists| && ChainFault(c, lists[j]).None? ==> |lists[j]| <= |lists[i]|)
    && (forall j :: 0 <= j < |lists| && ChainFault(c, lists[j]).None? && |lists[j]| == |lists[i]| ==>
         FromBE(HeadHash(c, lists[i])) <= FromBE(HeadHash(c, lists[j])))
    && (forall j :: 0 <= j < i && ChainFault(c, lists[j]).None? && |lists[j]| == |lists[i]| ==>
         FromBE(HeadHash(c, lists[i])) != FromBE(HeadHash(c, lists[j])))
  }

  lemma FirstBestIsLongest(c: Crypto, lists: seq<seq<Block>>, k: nat)
    requires Survivors(c, lists).Some? && FirstBest(c, Survivors(c, lists).value, k)
    ensures LongestValid(c, lists, Place(c, lists, k))
  {
    var i := Place(c, lists, k);
    forall j | 0 <= j < |lists| && ChainFault(c, lists[j]).None?
      ensures !Better(c, lists[j], lists[i]) && (j < i ==> Better(c, lists[i], lists[j]))
    {
      NoneBetterThanPlaced(c, lists, k, j);
    }
    UnbeatenIsLongest(c, lists, i);
  }

  lemma NoneBetterThanPlaced(c: Crypto, lists: seq<seq<Block>>, k: nat, j: nat)
    requires Survivors(c, lists).Some? && FirstBest(c, Survivors(c, lists).value, k)
    requires j < |lists| && ChainFault(c, lists[j]).None?
    ensures var i := Place(c, lists, k);
            !Better(c, lists[j], lists[i]) && (j < i ==> Better(c, lists[i], lists[j]))
  {
    var valid := Survivors(c, lists).value;
    var l := EveryValidHasAPlace(c, lists, j);
    if k < l {
      PlacesInOrder(c, lists, k, l);
    }
    FirstBestOfTwo(c, valid, k, l, Place(c, lists, k), j);
  }

  lemma FirstBestOfTwo(c: Crypto, valid: seq<seq<Block>>, k: nat, l: nat, i: nat, j: nat)
    requires FirstBest(c, valid, k) && l < |valid|
    requires (k < l ==> i < j) && (k == l ==> i == j)
    ensures !Better(c, valid[l], valid[k]) && (j < i ==> Better(c, valid[k], valid[l]))
  {
  }

  lemma UnbeatenIsLongest(c: Crypto, lists: seq<seq<Block>>, i: nat)
    requires i < |lists| && ChainFault(c, lists[i]).None?
    requires forall j :: 0 <= j < |lists| && ChainFault(c, lists[j]).None? ==>
               !Better(c, lists[j], lists[i]) && (j < i ==> Better(c, lists[i], lists[j]))
    ensures LongestValid(c, lists, i)
  {
  }

  lemma SurvivorsSnoc(c: Crypto, lists: seq<seq<Block>>, i: nat)
    requires i < |lists| && Survivors(c, lists[..i]).Some?
    ensures var fault := ChainFault(c, lists[i]);
            Survivors(c, lists[..i + 1])
            == if fault == Some(MalformedKey) then None
               else Some(Survivors(c, lists[..i]).value + if fault.None? then [lists[i]] else [])
  {
    assert lists[..i + 1][..i] == lists[..i];
  }

  lemma {:induction false} RaisePersists(c: Crypto, lists: seq<seq<Block>>, n: nat)
    requires n <= |lists| && Survivors(c, lists[..n]).None?
    ensures Survivors(c, lists).None?
    decreases |lists|
  {
    if n == |lists| {
      assert lists[..n] == lists;
    } else {
      assert lists[..|lists| - 1][..n] == lists[..n];
      RaisePersists(c, lists[..|lists| - 1], n);
    }
  }

  /** Verifies the candidates one after the other. Only ChainError is caught: a key that does not
      parse is not a ChainError and ends the loop. */
  method VerifyCandidates(c: Crypto, chains: seq<Chain>) returns (valid: Option<seq<seq<Block>>>)
    requires forall ch :: ch in chains ==> ch.crypto == c
    ensures valid == Survivors(c, Lists(chains))
  {
    ghost var lists := Lists(chains);
    var kept: seq<seq<Block>> := [];
    for i := 0 to |chains|
      invariant Some(kept) == Survivors(c, lists[..i])
    {
      var fault := chains[i].VerifyFull();
      assert fault == ChainFault(c, lists[i]);
      SurvivorsSnoc(c, lists, i);
      if fault == Some(MalformedKey) {
        RaisePersists(c, lists, i + 1);
        return None;
      }
      kept := kept + if fault.None? then [chains[i].blocks] else [];
    }
    assert lists[..|chains|] == lists;
    valid := Some(kept);
  }

  /** pick_best_chain. It does not discard a candidate whose verification meets a key that does not
      parse: then, and only then, it raises, whatever the other candidates are. Otherwise it returns
      the first in order of the candidates that verify. */
  method PickBestChain(c: Crypto, chains: seq<Chain>) returns (r: ForkChoice, ghost k: nat, ghost i: nat)
    requires forall ch :: ch in chains ==> ch.crypto == c
    ensures r.RaisedMalformedKey? <==> SomeMeetsBadKey(c, Lists(chains))
    ensures r.RaisedMalformedKey? <==> Survivors(c, Lists(chains)).None?
    ensures r.NoValidChain? <==> Survivors(c, Lists(chains)) == Some([])
    ensures r.NoValidChain? ==> forall l :: l in Lists(chains) ==> ChainFault(c, l).Some?
    ensures r.Picked? ==>
              var valid := Survivors(c, Lists(chains)).value;
              FirstBest(c, valid, k) && r.blocks == valid[k] && IsBest(c, Lists(chains), r.blocks)
    ensures r.Picked? ==> LongestValid(c, Lists(chains), i) && r.blocks == Lists(chains)[i]
  {
    k, i := 0, 0;
    var valid := VerifyCandidates(c, chains);
    SurvivorsAre(c, Lists(chains));
    if valid.None? {
      return RaisedMalformedKey, k, i;
    }
    if valid.value == [] {
      return NoValidChain, k, i;
    }
    var best := FirstInOrder(c, valid.value);
    k := best;
    FirstBestIsLongest(c, Lists(chains), k);
    i := Place(c, Lists(chains), k);
    r := Picked(valid.value[best]);
  }

  /** Peers that saw the same candidates in whatever order agree on the history. */
  lemma ForkChoiceIgnoresOrder(c: Crypto, here: seq<seq<Block>>, there: seq<seq<Block>>,
                               a: seq<Block>, b: seq<Block>, w: Hashed)
    requires forall l :: l in here <==> l in there
    requires IsBest(c, here, a) && IsBest(c, there, b)
    requires NoClash(c, w) && ChainIn(c, a, w) && ChainIn(c, b, w)
    ensures SameUpToReceipts(a, b)
  {
    assert !Better(c, a, b) && !Better(c, b, a);
    FromBEInjective(HeadHash(c, a), HeadHash(c, b));
    HeadBindsHistory(c, a, b, w);
  }

  /** The fork choice promises to discard what is invalid. With any key that does not parse there is
      a candidate that makes it raise although the other candidate, the empty chain, is valid. */
  lemma MalformedKeyOutweighsValidChain(c: Crypto, key: Key)
    requires !c.keyParses(key)
    ensures var header := BlockHeader(PROTOCOL_VERSION, 0, GENESIS_PREV, 0.0, MerkleRoot(c, []), 0, 0);
            && ChainFault(c, []).None?
            && SomeMeetsBadKey(c, [[], [Block(header, [], key, "")]])
  {
    var header := BlockHeader(PROTOCOL_VERSION, 0, GENESIS_PREV, 0.0, MerkleRoot(c, []), 0, 0);
    var b := Block(header, [], key, "");
    ChainFaultSnoc(c, [], b);
    assert [] + [b] == [b];
    ChainRaisesIff(c, [b]);
    assert [b] in [[], [b]];
  }

  // ---- no minting ----------------------------------------------------------------------------

  predicate Earns(e: LedgerEntry, account: NodeId) {
    e.body.account == account && e.body.reason == VerifiedWork && e.receipt.Some?
  }

  /** What the receipts behind an account's entries were worth, counted once per entry. */
  function Earned(entries: seq<LedgerEntry>, account: NodeId): real {
    if entries == [] then 0.0
    else
      var e := entries[|entries| - 1];
      Earned(entries[..|entries| - 1], account)
      + if Earns(e, account) then CreditForReceipt(e.receipt.value) else 0.0
  }

  function Count(entries: seq<LedgerEntry>, account: NodeId): nat {
    if entries == [] then 0
    else Count(entries[..|entries| - 1], account)
         + if entries[|entries| - 1].body.account == account then 1 else 0
  }

  /** Tolerance of one delta plus half a unit of the rounding that follows it. */
  const SLACK := 0.0000015

  lemma OneEntryMintsNothing(c: Crypto, e: LedgerEntry, before: real)
    requires SoundEntry(c, e)
    ensures Round(before + e.body.delta, MICRO)
         <= before + SLACK + if e.body.reason == VerifiedWork then CreditForReceipt(e.receipt.value) else 0.0
  {
    RoundIsNear(before + e.body.delta, MICRO);
    assert 0.5 / MICRO == 0.0000005;
  }

  lemma {:induction false} NoMintingInEntries(c: Crypto, entries: seq<LedgerEntry>, account: NodeId)
    requires forall e :: e in entries ==> SoundEntry(c, e)
    ensures Balance(entries, account)
         <= Earned(entries, account) + SLACK * Count(entries, account) as real
  {
    if entries != [] {
      var shorter, e := entries[..|entries| - 1], entries[|entries| - 1];
      assert e in entries && forall x :: x in shorter ==> x in entries;
      NoMintingInEntries(c, shorter, account);
      if e.body.account == account {
        OneEntryMintsNothing(c, e, Balance(shorter, account));
      }
    }
  }

  /** In a chain that verifies, nobody holds more than what the receipts behind their entries earn, each
      counted once per entry, up to the tolerance and the rounding of each entry. */
  lemma NoMinting(c: Crypto, blocks: seq<Block>, account: NodeId)
    requires ChainFault(c, blocks).None?
    ensures Balance(Entries(blocks), account)
         <= Earned(Entries(blocks), account) + SLACK * Count(Entries(blocks), account) as real
  {
    VerifiedIffSound(c, blocks);
    NoMintingInEntries(c, Entries(blocks), account);
  }
}
