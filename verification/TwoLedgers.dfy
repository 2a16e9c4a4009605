/** The control plane's credit table and the credit chain give the same account of the same work. */
module TwoLedgers {
  import opened Bytes
  import opened Merkle
  import opened Receipts
  import opened Rounding
  import opened Ledger
  import opened ChainSafety
  import opened ControlPlane

  // ---- what every run of the control plane keeps -----------------------------------------------

  /** A draw is fresh when no node was ever given that token. Random 16-byte tokens are not empty. */
  ghost predicate FreshDraw(c: Crypto, s: State, e: Event) {
    match e
    case Register(_, _, _, nonce, _) => RegisterReply(c, e).Issued? ==> nonce != "" && nonce !in s.minted
    case Heartbeat(_, _, nonce, _) => HeartbeatReply(s, e).Issued? ==> nonce != "" && nonce !in s.minted
    case _ => true
  }

  ghost function After(c: Crypto, events: seq<Event>): State {
    if events == [] then Fresh
    else Next(c, After(c, events[..|events| - 1]), events[|events| - 1])
  }

  ghost predicate FreshRun(c: Crypto, events: seq<Event>) {
    forall i :: 0 <= i < |events| ==> FreshDraw(c, After(c, events[..i]), events[i])
  }

  /** The chain entry that records an accepted receipt. */
  function EntryOf(sr: SignedReceipt): LedgerEntry {
    var r := sr.receipt;
    LedgerEntry(EntryBody(r.receiptId, r.nodeId, CreditForReceipt(sr), VerifiedWork, r.receiptId, r.challengeNonce),
                Some(sr))
  }

  function RowOf(sr: SignedReceipt): CreditRow {
    CreditRow(sr.receipt.nodeId, CreditForReceipt(sr), sr.receipt.receiptId)
  }

  function EntriesOf(receipts: seq<SignedReceipt>): (r: seq<LedgerEntry>)
    ensures |r| == |receipts| && forall i :: 0 <= i < |r| ==> r[i] == EntryOf(receipts[i])
  {
    seq(|receipts|, i requires 0 <= i < |receipts| => EntryOf(receipts[i]))
  }

  function RowsOf(receipts: seq<SignedReceipt>): (r: seq<CreditRow>)
    ensures |r| == |receipts| && forall i :: 0 <= i < |r| ==> r[i] == RowOf(receipts[i])
  {
    seq(|receipts|, i requires 0 <= i < |receipts| => RowOf(receipts[i]))
  }

  ghost predicate MintedFor(s: State, nonce: string, node: NodeId) {
    nonce != "" && nonce in s.minted && s.minted[nonce] == node
  }

  ghost predicate KeysDeriveNodes(c: Crypto, s: State) {
    forall n :: n in s.nodes ==> c.keyParses(s.nodes[n]) && c.nodeIdOf(s.nodes[n]) == n
  }

  ghost predicate OutstandingAreUnused(s: State) {
    forall n, x :: n in s.issued && x in s.issued[n] ==>
      MintedFor(s, x, n) && forall r :: r in s.receipts ==> r.receipt.challengeNonce != x
  }

  ghost predicate ReceiptsAreBacked(c: Crypto, s: State) {
    && (forall r :: r in s.receipts ==>
          SoundEntry(c, EntryOf(r)) && MintedFor(s, r.receipt.challengeNonce, r.receipt.nodeId))
    && (forall i, j :: 0 <= i < j < |s.receipts| ==>
          s.receipts[i].receipt.challengeNonce != s.receipts[j].receipt.challengeNonce)
  }

  ghost predicate Invariant(c: Crypto, s: State) {
    KeysDeriveNodes(c, s) && OutstandingAreUnused(s) && ReceiptsAreBacked(c, s) && s.credits == RowsOf(s.receipts)
  }

  lemma IssueKeepsInvariant(c: Crypto, s: State, node: NodeId, nonce: string, evicted: string)
    requires Invariant(c, s) && nonce != "" && nonce !in s.minted
    ensures Invariant(c, Issue(s, node, nonce, evicted))
  {
    var t := Issue(s, node, nonce, evicted);
    assert forall x, n :: MintedFor(s, x, n) ==> MintedFor(t, x, n);
    forall n, x | n in t.issued && x in t.issued[n]
      ensures MintedFor(t, x, n) && forall r :: r in t.receipts ==> r.receipt.challengeNonce != x
    {
      if x != nonce {
        assert n in s.issued && x in s.issued[n];
      }
    }
  }

  lemma SubmitKeepsInvariant(c: Crypto, s: State, sr: SignedReceipt, now: real)
    requires Invariant(c, s) && SubmitReply(c, s, sr, now).Credited?
    ensures Invariant(c, Next(c, s, Submit(sr, now)))
  {
    var t := Next(c, s, Submit(sr, now));
    var r := sr.receipt;
    assert r.challengeNonce in s.issued[r.nodeId];
    assert MintedFor(s, r.challengeNonce, r.nodeId);
    assert SoundEntry(c, EntryOf(sr));
    assert forall x :: x in t.receipts <==> x in s.receipts || x == sr;
    assert t.credits == RowsOf(t.receipts);
    forall n, x | n in t.issued && x in t.issued[n]
      ensures MintedFor(t, x, n) && forall q :: q in t.receipts ==> q.receipt.challengeNonce != x
    {
      assert n in s.issued && x in s.issued[n];
      assert MintedFor(s, x, n);
    }
  }

  lemma StepKeepsInvariant(c: Crypto, s: State, e: Event)
    requires Invariant(c, s) && FreshDraw(c, s, e)
    ensures Invariant(c, Next(c, s, e))
  {
    match e {
      case Register(node, key, _, nonce, evicted) =>
        if RegisterReply(c, e).Issued? {
          IssueKeepsInvariant(c, s.(nodes := s.nodes[node := key]), node, nonce, evicted);
        }
      case Heartbeat(node, _, nonce, evicted) =>
        if HeartbeatReply(s, e).Issued? {
          IssueKeepsInvariant(c, s, node, nonce, evicted);
        }
      case Submit(sr, now) =>
        if SubmitReply(c, s, sr, now).Credited? {
          SubmitKeepsInvariant(c, s, sr, now);
        }
      case Schedule(_, _) =>
      case Restart =>
    }
  }

  /** Over every run, restarts included: each credited nonce was issued by this control plane to the
      node that used it, is credited once, and the credit table is one row per accepted receipt. */
  lemma {:induction false} EveryRunKeepsInvariant(c: Crypto, events: seq<Event>)
    requires FreshRun(c, events)
    ensures Invariant(c, After(c, events))
  {
    if events != [] {
      var n := |events| - 1;
      assert forall i :: 0 <= i < n ==> events[..n][..i] == events[..i];
      EveryRunKeepsInvariant(c, events[..n]);
      StepKeepsInvariant(c, After(c, events[..n]), events[n]);
    }
  }

  /** The table's own constraint holds without any assumption on the draws: a node never gets two
      credits for one nonce, nor two credits for one receipt id. */
  lemma {:induction false} TableConstraint(c: Crypto, events: seq<Event>, i: nat, j: nat)
    requires i < j < |After(c, events).receipts|
    ensures var a, b := After(c, events).receipts[i].receipt, After(c, events).receipts[j].receipt;
            a.receiptId != b.receiptId && (a.nodeId != b.nodeId || a.challengeNonce != b.challengeNonce)
    decreases |events|
  {
    var n := |events| - 1;
    var s := After(c, events[..n]);
    RowsGrow(c, s, events[n]);
    if j < |s.receipts| {
      TableConstraint(c, events[..n], i, j);
    } else {
      assert s.receipts[i] in s.receipts;
    }
  }

  /** One event leaves the receipt table alone, or adds one row that collides with none. */
  lemma RowsGrow(c: Crypto, s: State, e: Event)
    ensures var t := Next(c, s, e);
            || t.receipts == s.receipts
            || (e.Submit? && t.receipts == s.receipts + [e.receipt] && !Collides(s.receipts, e.receipt.receipt))
  {
  }

  // ---- producing blocks ------------------------------------------------------------------------

  datatype Producer = Producer(node: NodeId, key: Key, sign: seq<byte> -> string)

  /** The producer's signatures verify under its key, and its id derives from that key. */
  ghost predicate Honest(c: Crypto, p: Producer) {
    c.keyParses(p.key) && c.nodeIdOf(p.key) == p.node && forall m :: c.verifies(p.key, m, p.sign(m))
  }

  /** Block.produce. */
  function Produce(c: Crypto, p: Producer, index: nat, prevHash: Digest, timestamp: real,
                   entries: seq<LedgerEntry>): Block
  {
    var header := BlockHeader(PROTOCOL_VERSION, index, prevHash, timestamp, MerkleRoot(c, entries),
                              p.node, |entries|);
    Block(header, entries, p.key, p.sign(c.headerJson(header)))
  }

  datatype Batch = Batch(timestamp: real, entries: seq<LedgerEntry>)

  /** Any split of the entries into blocks, each produced on top of the one before. */
  function ProduceAll(c: Crypto, p: Producer, batches: seq<Batch>): (r: seq<Block>)
    ensures |r| == |batches|
  {
    if batches == [] then []
    else
      var before := ProduceAll(c, p, batches[..|batches| - 1]);
      var last := batches[|batches| - 1];
      before + [Produce(c, p, |before|, HeadHash(c, before), last.timestamp, last.entries)]
  }

  function Flatten(batches: seq<Batch>): seq<LedgerEntry> {
    if batches == [] then [] else Flatten(batches[..|batches| - 1]) + batches[|batches| - 1].entries
  }

  lemma ProducedIsSound(c: Crypto, p: Producer, before: seq<Block>, timestamp: real, entries: seq<LedgerEntry>)
    requires Honest(c, p)
    ensures var b := Produce(c, p, |before|, HeadHash(c, before), timestamp, entries);
            SoundHeader(c, before + [b], |before|)
  {
  }

  lemma {:induction false} ProducedHeaders(c: Crypto, p: Producer, batches: seq<Batch>)
    requires Honest(c, p)
    ensures forall i :: 0 <= i < |batches| ==> SoundHeader(c, ProduceAll(c, p, batches), i)
    ensures Entries(ProduceAll(c, p, batches)) == Flatten(batches)
  {
    if batches != [] {
      var n := |batches| - 1;
      ProducedHeaders(c, p, batches[..n]);
      ProducedOneMore(c, p, ProduceAll(c, p, batches[..n]), batches[n]);
    }
  }

  lemma ProducedOneMore(c: Crypto, p: Producer, before: seq<Block>, last: Batch)
    requires Honest(c, p) && forall i :: 0 <= i < |before| ==> SoundHeader(c, before, i)
    ensures var blocks := before + [Produce(c, p, |before|, HeadHash(c, before), last.timestamp, last.entries)];
            && (forall i :: 0 <= i < |blocks| ==> SoundHeader(c, blocks, i))
            && Entries(blocks) == Entries(before) + last.entries
  {
    var b := Produce(c, p, |before|, HeadHash(c, before), last.timestamp, last.entries);
    ProducedIsSound(c, p, before, last.timestamp, last.entries);
    SoundHeadersSnoc(c, before, b);
    EntriesSnoc(before, b);
  }

  lemma {:induction false} WorkNoncesOfReceipts(receipts: seq<SignedReceipt>)
    ensures |WorkNonces(EntriesOf(receipts))| == |receipts|
    ensures forall i :: 0 <= i < |receipts| ==>
              WorkNonces(EntriesOf(receipts))[i] == receipts[i].receipt.challengeNonce
  {
    if receipts != [] {
      assert EntriesOf(receipts)[1..] == EntriesOf(receipts[1..]);
      WorkNoncesOfReceipts(receipts[1..]);
    }
  }

  lemma {:induction false} BalancesAgree(receipts: seq<SignedReceipt>, node: NodeId)
    ensures Balance(EntriesOf(receipts), node) == StoreBalance(RowsOf(receipts), node)
    ensures OnGrid(Balance(EntriesOf(receipts), node), MILLI)
  {
    if receipts == [] {
      WholeOnGrid(0);
    } else {
      var n := |receipts| - 1;
      assert EntriesOf(receipts)[..n] == EntriesOf(receipts[..n]);
      assert RowsOf(receipts)[..n] == RowsOf(receipts[..n]);
      BalancesAgree(receipts[..n], node);
      if receipts[n].receipt.nodeId == node {
        var before, credit := Balance(EntriesOf(receipts[..n]), node), CreditForReceipt(receipts[n]);
        CreditOnGrid(receipts[n]);
        GridSum(before, credit, MILLI);
        MilliGridIsMicroGrid(before + credit);
        RoundOnGrid(before + credit, MICRO);
      }
    }
  }

  lemma ReceiptsMakeValidChain(c: Crypto, s: State, p: Producer, batches: seq<Batch>)
    requires ReceiptsAreBacked(c, s) && Honest(c, p)
    requires Flatten(batches) == EntriesOf(s.receipts)
    ensures ChainFault(c, ProduceAll(c, p, batches)).None?
    ensures Entries(ProduceAll(c, p, batches)) == EntriesOf(s.receipts)
  {
    ProducedHeaders(c, p, batches);
    WorkNoncesOfReceipts(s.receipts);
    assert Distinct(WorkNonces(EntriesOf(s.receipts)));
    assert forall e :: e in EntriesOf(s.receipts) ==> SoundEntry(c, e);
    VerifiedIffSound(c, ProduceAll(c, p, batches));
  }

  /** After any run with fresh nonces, the accepted receipts, in order and split into blocks in any
      way, make a chain that every peer verifies; and on it each node's replayed balance is exactly
      the sum of its rows in the control plane's table. */
  lemma LedgersAgree(c: Crypto, events: seq<Event>, p: Producer, batches: seq<Batch>, node: NodeId)
    requires FreshRun(c, events) && Honest(c, p)
    requires Flatten(batches) == EntriesOf(After(c, events).receipts)
    ensures ChainFault(c, ProduceAll(c, p, batches)).None?
    ensures Balance(Entries(ProduceAll(c, p, batches)), node) == StoreBalance(After(c, events).credits, node)
  {
    var s := After(c, events);
    EveryRunKeepsInvariant(c, events);
    ReceiptsMakeValidChain(c, s, p, batches);
    BalancesAgree(s.receipts, node);
  }
}
