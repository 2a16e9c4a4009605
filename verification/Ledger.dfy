/** The credit chain: hash-linked signed blocks of receipt-backed entries. */
module Ledger {
  import opened Bytes
  import opened Merkle
  import opened Receipts
  import opened Rounding

  const PROTOCOL_VERSION := 1
  const GENESIS_PREV: Digest := ZeroDigest()
  const CREDIT_TOLERANCE := 0.000001

  datatype Reason = VerifiedWork | Consumption | Correction | OtherReason(name: string)

  /** The part of an entry that its hash covers. */
  datatype EntryBody = EntryBody(
    entryId: string, account: NodeId, delta: real, reason: Reason, refReceiptId: string,
    challengeNonce: string)

  datatype LedgerEntry = LedgerEntry(body: EntryBody, receipt: Option<SignedReceipt>)

  datatype BlockHeader = BlockHeader(
    protocolVersion: int, index: int, prevHash: Digest, timestamp: real, merkleRoot: Digest,
    producer: NodeId, entryCount: int)

  datatype Block = Block(
    header: BlockHeader, entries: seq<LedgerEntry>, producerKey: Key, producerSignature: string)

  /** What the ledger takes from outside: BLAKE3, the canonical JSON of the signed objects, Ed25519
      verification, and the node id of a key. `keyParses` is false where decoding the key raises. */
  datatype Crypto = Crypto(
    hash: Hash, entryJson: EntryBody -> seq<byte>, headerJson: BlockHeader -> seq<byte>,
    receiptJson: WorkReceipt -> seq<byte>, keyParses: Key -> bool, nodeIdOf: Key -> NodeId,
    verifies: (Key, seq<byte>, string) -> bool)

  /** Why a block is refused. Every case is a ChainError except MalformedKey, which is the
      ValueError that decoding a public key raises. */
  datatype Fault =
    | WrongVersion | WrongIndex | WrongPrevHash | WrongEntryCount | WrongMerkleRoot
    | MalformedKey | WrongProducer | BadProducerSignature
    | UnbackedCredit | MissingReceipt | ReceiptKeyMismatch | BadReceiptSignature | WrongAccount
    | WrongReceiptRef | WrongCredit | MissingNonce | NonceReused | SpendNotNegative | UnknownReason

  function EntryHash(c: Crypto, e: LedgerEntry): Digest {
    c.hash(c.entryJson(e.body))
  }

  function EntryHashes(c: Crypto, entries: seq<LedgerEntry>): (r: seq<Digest>)
    ensures |r| == |entries|
    ensures forall i :: 0 <= i < |r| ==> r[i] == EntryHash(c, entries[i])
  {
    seq(|entries|, i requires 0 <= i < |entries| => EntryHash(c, entries[i]))
  }

  function MerkleRoot(c: Crypto, entries: seq<LedgerEntry>): Digest {
    Root(c.hash, EntryHashes(c, entries))
  }

  function BlockHash(c: Crypto, b: Block): Digest {
    c.hash(c.headerJson(b.header))
  }

  function Abs(x: real): real {
    if x < 0.0 then -x else x
  }

  // ---- the checks, in the order the source makes them -----------------------------------------

  function ReceiptFault(c: Crypto, e: LedgerEntry): Option<Fault> {
    if e.receipt.None? then Some(MissingReceipt)
    else
      var sr := e.receipt.value;
      if !c.keyParses(sr.key) then Some(MalformedKey)
      else if c.nodeIdOf(sr.key) != sr.receipt.nodeId then Some(ReceiptKeyMismatch)
      else if !c.verifies(sr.key, c.receiptJson(sr.receipt), sr.signature) then Some(BadReceiptSignature)
      else if sr.receipt.nodeId != e.body.account then Some(WrongAccount)
      else if sr.receipt.receiptId != e.body.refReceiptId then Some(WrongReceiptRef)
      else if Abs(CreditForReceipt(sr) - e.body.delta) > CREDIT_TOLERANCE then Some(WrongCredit)
      else None
  }

  function EntryFault(c: Crypto, e: LedgerEntry, used: set<string>, needReceipts: bool): Option<Fault> {
    var b := e.body;
    if b.delta > 0.0 && b.reason != VerifiedWork then Some(UnbackedCredit)
    else match b.reason
      case VerifiedWork =>
        var fault := if needReceipts then ReceiptFault(c, e) else None;
        if fault.Some? then fault
        else if b.challengeNonce == "" then Some(MissingNonce)
        else if b.challengeNonce in used then Some(NonceReused)
        else None
      case Consumption => if b.delta >= 0.0 then Some(SpendNotNegative) else None
      case Correction => None
      case OtherReason(_) => Some(UnknownReason)
  }

  function NonceOf(e: LedgerEntry): set<string> {
    if e.body.reason == VerifiedWork then {e.body.challengeNonce} else {}
  }

  function Nonces(entries: seq<LedgerEntry>): set<string> {
    set e | e in entries && e.body.reason == VerifiedWork :: e.body.challengeNonce
  }

  /** The first fault among the entries, each nonce counting as used from its entry on. */
  function EntriesFault(c: Crypto, entries: seq<LedgerEntry>, used: set<string>, needReceipts: bool)
    : Option<Fault>
  {
    if entries == [] then None
    else
      var fault := EntryFault(c, entries[0], used, needReceipts);
      if fault.Some? then fault
      else EntriesFault(c, entries[1..], used + NonceOf(entries[0]), needReceipts)
  }

  function HeaderFault(c: Crypto, b: Block, prevHash: Digest, index: nat): Option<Fault> {
    var h := b.header;
    if h.protocolVersion != PROTOCOL_VERSION then Some(WrongVersion)
    else if h.index != index then Some(WrongIndex)
    else if h.prevHash != prevHash then Some(WrongPrevHash)
    else if h.entryCount != |b.entries| then Some(WrongEntryCount)
    else if MerkleRoot(c, b.entries) != h.merkleRoot then Some(WrongMerkleRoot)
    else if !c.keyParses(b.producerKey) then Some(MalformedKey)
    else if c.nodeIdOf(b.producerKey) != h.producer then Some(WrongProducer)
    else if !c.verifies(b.producerKey, c.headerJson(h), b.producerSignature) then Some(BadProducerSignature)
    else None
  }

  function BlockFault(c: Crypto, b: Block, prevHash: Digest, index: nat, seen: set<string>,
                      needReceipts: bool): Option<Fault>
  {
    var fault := HeaderFault(c, b, prevHash, index);
    if fault.Some? then fault else EntriesFault(c, b.entries, seen, needReceipts)
  }

  lemma NoncesSnoc(entries: seq<LedgerEntry>, e: LedgerEntry)
    ensures Nonces(entries + [e]) == Nonces(entries) + NonceOf(e)
  {
    var all := entries + [e];
    assert forall x :: x in all <==> x in entries || x == e;
  }

  /** One pass of the entry loop: what the check of entry i adds to the checks before it. */
  lemma EntriesFaultStep(c: Crypto, entries: seq<LedgerEntry>, i: nat, seen: set<string>,
                         local: set<string>, needReceipts: bool)
    requires i < |entries| && local == Nonces(entries[..i])
    ensures var e := entries[i];
            var fault := EntryFault(c, e, seen + local, needReceipts);
            && EntriesFault(c, entries[i..], seen + local, needReceipts)
            == (if fault.Some? then fault
                else EntriesFault(c, entries[i + 1..], seen + (local + NonceOf(e)), needReceipts))
            && local + NonceOf(e) == Nonces(entries[..i + 1])
  {
    NoncesSnoc(entries[..i], entries[i]);
    assert entries[..i + 1] == entries[..i] + [entries[i]];
    assert entries[i..][1..] == entries[i + 1..];
    assert seen + local + NonceOf(entries[i]) == seen + (local + NonceOf(entries[i]));
  }

  /** verify_block: `seen` grows by the block's nonces only when the whole block passes. */
  method VerifyBlock(c: Crypto, b: Block, expectedPrevHash: Digest, expectedIndex: nat,
                     seen: set<string>, needReceipts: bool)
    returns (fault: Option<Fault>, seenAfter: set<string>)
    ensures fault == BlockFault(c, b, expectedPrevHash, expectedIndex, seen, needReceipts)
    ensures seenAfter == if fault.None? then seen + Nonces(b.entries) else seen
  {
    seenAfter := seen;
    fault := HeaderFault(c, b, expectedPrevHash, expectedIndex);
    if fault.Some? {
      return;
    }
    var local: set<string> := {};
    assert b.entries[0..] == b.entries && seen + local == seen;
    for i := 0 to |b.entries|
      invariant local == Nonces(b.entries[..i])
      invariant EntriesFault(c, b.entries, seen, needReceipts)
             == EntriesFault(c, b.entries[i..], seen + local, needReceipts)
    {
      EntriesFaultStep(c, b.entries, i, seen, local, needReceipts);
      fault := EntryFault(c, b.entries[i], seen + local, needReceipts);
      if fault.Some? {
        return;
      }
      local := local + NonceOf(b.entries[i]);
    }
    assert b.entries[..|b.entries|] == b.entries;
    fault := None;
    seenAfter := seen + local;
  }

  // ---- whole chains --------------------------------------------------------------------------

  function HeadHash(c: Crypto, blocks: seq<Block>): Digest {
    if blocks == [] then GENESIS_PREV else BlockHash(c, blocks[|blocks| - 1])
  }

  function Entries(blocks: seq<Block>): seq<LedgerEntry> {
    if blocks == [] then [] else Entries(blocks[..|blocks| - 1]) + blocks[|blocks| - 1].entries
  }

  /** The first fault met when a chain is verified from genesis. */
  function ChainFault(c: Crypto, blocks: seq<Block>): Option<Fault> {
    if blocks == [] then None
    else
      var shorter := blocks[..|blocks| - 1];
      var fault := ChainFault(c, shorter);
      if fault.Some? then fault
      else BlockFault(c, blocks[|blocks| - 1], HeadHash(c, shorter), |shorter|, Nonces(Entries(shorter)), true)
  }

  lemma {:induction false} FaultPersists(c: Crypto, blocks: seq<Block>, n: nat)
    requires n <= |blocks| && ChainFault(c, blocks[..n]).Some?
    ensures ChainFault(c, blocks) == ChainFault(c, blocks[..n])
    decreases |blocks|
  {
    if n == |blocks| {
      assert blocks[..n] == blocks;
    } else {
      var shorter := blocks[..|blocks| - 1];
      assert shorter[..n] == blocks[..n];
      FaultPersists(c, shorter, n);
    }
  }

  lemma PrefixSnoc(blocks: seq<Block>, i: nat)
    requires i < |blocks|
    ensures blocks[..i + 1] == blocks[..i] + [blocks[i]]
  {
  }

  lemma NoncesConcat(a: seq<LedgerEntry>, b: seq<LedgerEntry>)
    ensures Nonces(a + b) == Nonces(a) + Nonces(b)
  {
    assert forall x :: x in a + b <==> x in a || x in b;
  }

  lemma EntriesSnoc(blocks: seq<Block>, b: Block)
    ensures Entries(blocks + [b]) == Entries(blocks) + b.entries
    ensures Nonces(Entries(blocks + [b])) == Nonces(Entries(blocks)) + Nonces(b.entries)
  {
    assert (blocks + [b])[..|blocks|] == blocks;
    NoncesConcat(Entries(blocks), b.entries);
  }

  lemma ChainFaultSnoc(c: Crypto, blocks: seq<Block>, b: Block)
    requires ChainFault(c, blocks).None?
    ensures ChainFault(c, blocks + [b])
         == BlockFault(c, b, HeadHash(c, blocks), |blocks|, Nonces(Entries(blocks)), true)
  {
    assert (blocks + [b])[..|blocks|] == blocks;
  }

  /** An account's balance as the chain replays it: each step is rounded to six digits. */
  function Balance(entries: seq<LedgerEntry>, account: NodeId): real {
    if entries == [] then 0.0
    else
      var before := Balance(entries[..|entries| - 1], account);
      var b := entries[|entries| - 1].body;
      if b.account == account then Round(before + b.delta, MICRO) else before
  }

  function Accounts(entries: seq<LedgerEntry>): set<NodeId> {
    set e | e in entries :: e.body.account
  }

  lemma BalanceSnoc(entries: seq<LedgerEntry>, e: LedgerEntry)
    ensures forall a :: Balance(entries + [e], a)
                     == if a == e.body.account then Round(Balance(entries, a) + e.body.delta, MICRO)
                        else Balance(entries, a)
    ensures Accounts(entries + [e]) == Accounts(entries) + {e.body.account}
  {
    var all := entries + [e];
    assert all[..|entries|] == entries;
    assert forall x :: x in all <==> x in entries || x == e;
  }

  lemma {:induction false} BalanceOfStranger(entries: seq<LedgerEntry>, account: NodeId)
    requires account !in Accounts(entries)
    ensures Balance(entries, account) == 0.0
  {
    if entries != [] {
      var shorter := entries[..|entries| - 1];
      assert entries == shorter + [entries[|entries| - 1]];
      BalanceSnoc(shorter, entries[|entries| - 1]);
      BalanceOfStranger(shorter, account);
    }
  }

  /** A dictionary of balances that has seen exactly these entries. */
  ghost predicate Posted(out: map<NodeId, real>, entries: seq<LedgerEntry>) {
    out.Keys == Accounts(entries) && forall a :: a in out ==> out[a] == Balance(entries, a)
  }

  function Post(out: map<NodeId, real>, e: EntryBody): map<NodeId, real> {
    out[e.account := Round((if e.account in out then out[e.account] else 0.0) + e.delta, MICRO)]
  }

  lemma PostedSnoc(out: map<NodeId, real>, entries: seq<LedgerEntry>, e: LedgerEntry)
    requires Posted(out, entries)
    ensures Posted(Post(out, e.body), entries + [e])
  {
    BalanceSnoc(entries, e);
    if e.body.account !in out {
      BalanceOfStranger(entries, e.body.account);
    }
  }

  /** Adds one block's entries to a dictionary of balances that already holds `before`. */
  method Replay(start: map<NodeId, real>, ghost before: seq<LedgerEntry>, entries: seq<LedgerEntry>)
    returns (out: map<NodeId, real>)
    requires Posted(start, before)
    ensures Posted(out, before + entries)
  {
    out := start;
    assert before + entries[..0] == before;
    for j := 0 to |entries|
      invariant Posted(out, before + entries[..j])
    {
      assert before + entries[..j + 1] == before + entries[..j] + [entries[j]];
      PostedSnoc(out, before + entries[..j], entries[j]);
      out := Post(out, entries[j].body);
    }
    assert entries[..|entries|] == entries;
  }

  /** One node's replica of the chain. */
  class Chain {
    const crypto: Crypto
    var blocks: seq<Block>
    var seenNonces: set<string>

    /** What construction and append keep: a replica holds a chain that verifies from genesis, and
        the nonces it remembers are exactly those of the chain's verified work. */
    ghost predicate Valid()
      reads this
    {
      ChainFault(crypto, blocks).None? && seenNonces == Nonces(Entries(blocks))
    }

    constructor (crypto: Crypto)
      ensures Valid() && this.crypto == crypto && blocks == []
    {
      this.crypto := crypto;
      blocks := [];
      seenNonces := {};
    }

    /** A refused block leaves the replica as it was. */
    method Append(b: Block) returns (fault: Option<Fault>)
      requires Valid()
      modifies this
      ensures Valid()
      ensures fault == ChainFault(crypto, old(blocks) + [b])
      ensures blocks == if fault.None? then old(blocks) + [b] else old(blocks)
    {
      var prev := if |blocks| > 0 then BlockHash(crypto, blocks[|blocks| - 1]) else GENESIS_PREV;
      fault, seenNonces := VerifyBlock(crypto, b, prev, |blocks|, seenNonces, true);
      ChainFaultSnoc(crypto, blocks, b);
      EntriesSnoc(blocks, b);
      if fault.None? {
        blocks := blocks + [b];
      }
    }

    /** What a joining peer runs. It trusts nothing the replica remembers. */
    method VerifyFull() returns (fault: Option<Fault>)
      ensures fault == ChainFault(crypto, blocks)
    {
      var seen: set<string>, prev := {}, GENESIS_PREV;
      for i := 0 to |blocks|
        invariant ChainFault(crypto, blocks[..i]).None?
        invariant prev == HeadHash(crypto, blocks[..i]) && seen == Nonces(Entries(blocks[..i]))
      {
        var b := blocks[i];
        assert blocks[..i + 1] == blocks[..i] + [b];
        ChainFaultSnoc(crypto, blocks[..i], b);
        EntriesSnoc(blocks[..i], b);
        fault, seen := VerifyBlock(crypto, b, prev, i, seen, true);
        if fault.Some? {
          FaultPersists(crypto, blocks, i + 1);
          return;
        }
        prev := BlockHash(crypto, b);
      }
      assert blocks[..|blocks|] == blocks;
      fault := None;
    }

    /** Replays every entry into a dictionary of balances. */
    method Balances() returns (out: map<NodeId, real>)
      ensures Posted(out, Entries(blocks))
    {
      out := map[];
      for i := 0 to |blocks|
        invariant Posted(out, Entries(blocks[..i]))
      {
        var b := blocks[i];
        out := Replay(out, Entries(blocks[..i]), b.entries);
        assert blocks[..i + 1] == blocks[..i] + [b];
        EntriesSnoc(blocks[..i], b);
      }
      assert blocks[..|blocks|] == blocks;
    }
  }

  /** Chain(blocks): append one block after the other and stop at the first refusal. It accepts
      exactly the block lists that a full verification accepts, with the same fault otherwise. */
  method FromBlocks(c: Crypto, blocks: seq<Block>) returns (fault: Option<Fault>, chain: Chain)
    ensures chain.Valid() && fresh(chain) && chain.crypto == c
    ensures fault == ChainFault(c, blocks)
    ensures fault.None? ==> chain.blocks == blocks
  {
    chain := new Chain(c);
    for i := 0 to |blocks|
      invariant chain.Valid() && fresh(chain) && chain.crypto == c && chain.blocks == blocks[..i]
    {
      PrefixSnoc(blocks, i);
      fault := chain.Append(blocks[i]);
      if fault.Some? {
        FaultPersists(c, blocks, i + 1);
        return;
      }
    }
    assert blocks[..|blocks|] == blocks;
    fault := None;
  }
}
