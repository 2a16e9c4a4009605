/** How often one receipt can be credited. A chain remembers the nonces of its entries; the nonce inside
    a receipt is compared with nothing. */
module ReceiptReuse {
  import opened Bytes
  import opened Receipts
  import opened Rounding
  import opened Ledger
  import opened ChainSafety
  import opened ControlPlane
  import opened TwoLedgers

  // ---- one receipt, many entries -----------------------------------------------------------------

  /** An entry for a receipt, under any nonce. */
  function Copy(sr: SignedReceipt, nonce: string): LedgerEntry {
    var r := sr.receipt;
    LedgerEntry(EntryBody(r.receiptId, r.nodeId, CreditForReceipt(sr), VerifiedWork, r.receiptId, nonce), Some(sr))
  }

  function Copies(sr: SignedReceipt, nonces: seq<string>): (r: seq<LedgerEntry>)
    ensures |r| == |nonces| && forall i :: 0 <= i < |r| ==> r[i] == Copy(sr, nonces[i])
  {
    if nonces == [] then [] else Copies(sr, nonces[..|nonces| - 1]) + [Copy(sr, nonces[|nonces| - 1])]
  }

  /** The receipt is signed by the node that it names. */
  ghost predicate Genuine(c: Crypto, sr: SignedReceipt) {
    && c.keyParses(sr.key) && c.nodeIdOf(sr.key) == sr.receipt.nodeId
    && c.verifies(sr.key, c.receiptJson(sr.receipt), sr.signature)
  }

  lemma {:induction false} BalanceOnGrid(entries: seq<LedgerEntry>, account: NodeId)
    ensures OnGrid(Balance(entries, account), MICRO)
  {
    if entries == [] {
      WholeOnGrid(0);
      MilliGridIsMicroGrid(0.0);
    } else {
      var e := entries[|entries| - 1];
      BalanceOnGrid(entries[..|entries| - 1], account);
      RoundLandsOnGrid(Balance(entries[..|entries| - 1], account) + e.body.delta, MICRO);
    }
  }

  lemma CopyAdds(entries: seq<LedgerEntry>, sr: SignedReceipt, nonce: string)
    ensures Balance(entries + [Copy(sr, nonce)], sr.receipt.nodeId)
         == Balance(entries, sr.receipt.nodeId) + CreditForReceipt(sr)
  {
    var before, credit := Balance(entries, sr.receipt.nodeId), CreditForReceipt(sr);
    BalanceSnoc(entries, Copy(sr, nonce));
    BalanceOnGrid(entries, sr.receipt.nodeId);
    CreditOnGrid(sr);
    MilliGridIsMicroGrid(credit);
    GridSum(before, credit, MICRO);
    RoundOnGrid(before + credit, MICRO);
  }

  /** n credits, added one by one. */
  function Repeated(n: nat, credit: real): real {
    n as real * credit
  }

  lemma RepeatedOnce(n: nat, credit: real)
    ensures Repeated(n + 1, credit) == Repeated(n, credit) + credit
  {
  }

  lemma {:induction false} CopiesAddUp(before: seq<LedgerEntry>, sr: SignedReceipt, nonces: seq<string>)
    ensures Balance(before + Copies(sr, nonces), sr.receipt.nodeId)
         == Balance(before, sr.receipt.nodeId) + Repeated(|nonces|, CreditForReceipt(sr))
  {
    if nonces == [] {
      assert before + [] == before;
    } else {
      var n := |nonces| - 1;
      var less := before + Copies(sr, nonces[..n]);
      CopiesAddUp(before, sr, nonces[..n]);
      assert before + Copies(sr, nonces) == less + [Copy(sr, nonces[n])];
      CopyAdds(less, sr, nonces[n]);
      RepeatedOnce(n, CreditForReceipt(sr));
    }
  }

  /** The promise that a receipt's nonce is credited at most once fails: on top of any chain that
      verifies, a block with any number of entries for one genuine receipt, each under a nonce of its
      own that the chain has not seen, verifies too, and credits the receipt once per entry. */
  lemma OneReceiptCreditedManyTimes(c: Crypto, blocks: seq<Block>, p: Producer, timestamp: real,
                                    sr: SignedReceipt, nonces: seq<string>)
    requires ChainFault(c, blocks).None? && Honest(c, p) && Genuine(c, sr)
    requires Distinct(nonces) && "" !in nonces && forall x :: x in nonces ==> x !in Nonces(Entries(blocks))
    ensures var b := Produce(c, p, |blocks|, HeadHash(c, blocks), timestamp, Copies(sr, nonces));
            && ChainFault(c, blocks + [b]).None?
            && Balance(Entries(blocks + [b]), sr.receipt.nodeId)
               == Balance(Entries(blocks), sr.receipt.nodeId) + Repeated(|nonces|, CreditForReceipt(sr))
  {
    var b := Produce(c, p, |blocks|, HeadHash(c, blocks), timestamp, Copies(sr, nonces));
    if nonces == [] {
      ChainFaultSnoc(c, blocks, b);
    } else {
      CopiesVerifyIff(c, blocks, p, timestamp, sr, nonces);
    }
    EntriesSnoc(blocks, b);
    CopiesAddUp(Entries(blocks), sr, nonces);
  }

  lemma {:induction false} CopiesNonces(sr: SignedReceipt, nonces: seq<string>)
    ensures WorkNonces(Copies(sr, nonces)) == nonces
  {
    if nonces != [] {
      var n := |nonces| - 1;
      CopiesNonces(sr, nonces[..n]);
      WorkNoncesConcat(Copies(sr, nonces[..n]), [Copy(sr, nonces[n])]);
      assert nonces == nonces[..n] + [nonces[n]];
    }
  }

  lemma CopiesSoundIff(c: Crypto, sr: SignedReceipt, nonces: seq<string>)
    requires nonces != []
    ensures SoundEntries(c, Copies(sr, nonces)) <==> Genuine(c, sr) && Distinct(nonces) && "" !in nonces
  {
    var entries := Copies(sr, nonces);
    CopiesNonces(sr, nonces);
    forall i | 0 <= i < |nonces|
      ensures SoundEntry(c, entries[i]) <==> Genuine(c, sr) && nonces[i] != ""
    {
      assert entries[i] == Copy(sr, nonces[i]);
    }
    assert entries[0] in entries;
    assert forall i :: 0 <= i < |nonces| ==> entries[i] in entries;
  }

  /** Exactly when such a block verifies on top of a chain that does: the receipt is genuine, and the
      nonces are distinct, not empty and unseen. Nothing is asked of the nonce in the receipt. */
  lemma CopiesVerifyIff(c: Crypto, blocks: seq<Block>, p: Producer, timestamp: real,
                        sr: SignedReceipt, nonces: seq<string>)
    requires ChainFault(c, blocks).None? && Honest(c, p) && nonces != []
    ensures var b := Produce(c, p, |blocks|, HeadHash(c, blocks), timestamp, Copies(sr, nonces));
            ChainFault(c, blocks + [b]).None? <==>
              && Genuine(c, sr) && Distinct(nonces) && "" !in nonces
              && forall x :: x in nonces ==> x !in Nonces(Entries(blocks))
  {
    var entries := Copies(sr, nonces);
    var b := Produce(c, p, |blocks|, HeadHash(c, blocks), timestamp, entries);
    ChainFaultSnoc(c, blocks, b);
    CopiesSoundIff(c, sr, nonces);
    CopiesNonces(sr, nonces);
    WorkNoncesAreNonces(entries);
    EntriesFaultIff(c, entries, Nonces(Entries(blocks)));
  }

  // ---- when the promise holds --------------------------------------------------------------------

  /** Verified work is entered under the nonce of its own receipt. verify_block does not ask for it. */
  ghost predicate CarriesOwnNonces(entries: seq<LedgerEntry>) {
    forall e :: e in entries && e.body.reason == VerifiedWork && e.receipt.Some? ==>
      e.body.challengeNonce == e.receipt.value.receipt.challengeNonce
  }

  lemma WorkNoncesDiffer(c: Crypto, entries: seq<LedgerEntry>, i: nat, j: nat)
    requires SoundEntries(c, entries) && i < j < |entries|
    requires entries[i].body.reason == VerifiedWork && entries[j].body.reason == VerifiedWork
    ensures entries[i].body.challengeNonce != entries[j].body.challengeNonce
  {
    var before, rest := entries[..j], entries[j..];
    assert entries == before + rest;
    SoundEntriesConcat(c, before, rest);
    assert before[i] == entries[i] && entries[i].body.challengeNonce in Nonces(before);
    assert EntryFault(c, rest[0], Nonces(before), true).None?;
  }

  /** Under that condition a chain credits each receipt nonce, and so each receipt, at most once. */
  lemma OwnNoncesCreditOnce(c: Crypto, blocks: seq<Block>, i: nat, j: nat)
    requires ChainFault(c, blocks).None? && CarriesOwnNonces(Entries(blocks))
    requires i < j < |Entries(blocks)|
    requires Entries(blocks)[i].body.reason == Entries(blocks)[j].body.reason == VerifiedWork
    ensures var a, b := Entries(blocks)[i].receipt, Entries(blocks)[j].receipt;
            a.Some? && b.Some? && a.value.receipt.challengeNonce != b.value.receipt.challengeNonce
  {
    VerifiedIffSound(c, blocks);
    assert SoundEntry(c, Entries(blocks)[i]) && SoundEntry(c, Entries(blocks)[j]);
    WorkNoncesDiffer(c, Entries(blocks), i, j);
  }

  /** A rule on what nonce an entry may have, given the nonce of its receipt. */
  type Rule = (string, string) -> bool

  ghost predicate Follows(rule: Rule, entries: seq<LedgerEntry>) {
    forall e :: e in entries && e.body.reason == VerifiedWork && e.receipt.Some? ==>
      rule(e.body.challengeNonce, e.receipt.value.receipt.challengeNonce)
  }

  /** No two entries of verified work credit one receipt nonce. */
  ghost predicate CreditsOnce(entries: seq<LedgerEntry>) {
    forall i, j :: 0 <= i < j < |entries| && Credits(entries[i]) && Credits(entries[j]) ==>
      entries[i].receipt.value.receipt.challengeNonce != entries[j].receipt.value.receipt.challengeNonce
  }

  predicate Credits(e: LedgerEntry) {
    e.body.reason == VerifiedWork && e.receipt.Some?
  }

  /** Under the rule, a receipt nonce admits at most one entry nonce. */
  ghost predicate OneNonceEach(rule: Rule) {
    forall r, x, y :: x != "" && y != "" && rule(x, r) && rule(y, r) ==> x == y
  }

  lemma FollowersCreditOnce(c: Crypto, rule: Rule, blocks: seq<Block>)
    requires OneNonceEach(rule) && ChainFault(c, blocks).None? && Follows(rule, Entries(blocks))
    ensures CreditsOnce(Entries(blocks))
  {
    var entries := Entries(blocks);
    VerifiedIffSound(c, blocks);
    forall i, j | 0 <= i < j < |entries| && Credits(entries[i]) && Credits(entries[j])
      ensures entries[i].receipt.value.receipt.challengeNonce != entries[j].receipt.value.receipt.challengeNonce
    {
      WorkNoncesDiffer(c, entries, i, j);
      assert SoundEntry(c, entries[i]) && SoundEntry(c, entries[j]);
      assert rule(entries[i].body.challengeNonce, entries[i].receipt.value.receipt.challengeNonce);
      assert rule(entries[j].body.challengeNonce, entries[j].receipt.value.receipt.challengeNonce);
    }
  }

  /** A chain of one block that credits a receipt under both nonces that the rule admits. */
  lemma TwoNoncesCreditTwice(c: Crypto, p: Producer, rule: Rule, sr: SignedReceipt, x: string, y: string)
    returns (blocks: seq<Block>)
    requires Honest(c, p) && Genuine(c, sr) && x != "" && y != "" && x != y
    requires rule(x, sr.receipt.challengeNonce) && rule(y, sr.receipt.challengeNonce)
    ensures ChainFault(c, blocks).None? && Follows(rule, Entries(blocks)) && !CreditsOnce(Entries(blocks))
  {
    blocks := OneBlockOfCopies(c, p, sr, [x, y]);
    TwoCopies(rule, sr, x, y, Entries(blocks));
  }

  lemma OneBlockOfCopies(c: Crypto, p: Producer, sr: SignedReceipt, nonces: seq<string>) returns (blocks: seq<Block>)
    requires Honest(c, p) && Genuine(c, sr) && nonces != [] && Distinct(nonces) && "" !in nonces
    ensures ChainFault(c, blocks).None? && Entries(blocks) == Copies(sr, nonces)
  {
    var b := Produce(c, p, 0, HeadHash(c, []), 0.0, Copies(sr, nonces));
    CopiesVerifyIff(c, [], p, 0.0, sr, nonces);
    EntriesSnoc([], b);
    blocks := [] + [b];
  }

  lemma TwoCopies(rule: Rule, sr: SignedReceipt, x: string, y: string, entries: seq<LedgerEntry>)
    requires rule(x, sr.receipt.challengeNonce) && rule(y, sr.receipt.challengeNonce)
    requires entries == Copies(sr, [x, y])
    ensures Follows(rule, entries) && !CreditsOnce(entries)
  {
    assert entries[0] == Copy(sr, x) && entries[1] == Copy(sr, y);
    assert Credits(entries[0]) && Credits(entries[1]);
  }

  /** Exactly which rules would keep the promise, where receipts can be signed for any nonce: those
      that admit one entry nonce per receipt nonce. */
  lemma RuleKeepsPromiseIff(c: Crypto, p: Producer, receiptWith: string -> SignedReceipt, rule: Rule)
    requires Honest(c, p)
    requires forall r :: Genuine(c, receiptWith(r)) && receiptWith(r).receipt.challengeNonce == r
    ensures (forall blocks :: ChainFault(c, blocks).None? && Follows(rule, Entries(blocks)) ==>
               CreditsOnce(Entries(blocks)))
            <==> OneNonceEach(rule)
  {
    if OneNonceEach(rule) {
      forall blocks | ChainFault(c, blocks).None? && Follows(rule, Entries(blocks))
        ensures CreditsOnce(Entries(blocks))
      {
        FollowersCreditOnce(c, rule, blocks);
      }
    } else {
      var r, x, y :| x != "" && y != "" && rule(x, r) && rule(y, r) && x != y;
      var blocks := TwoNoncesCreditTwice(c, p, rule, receiptWith(r), x, y);
    }
  }

  /** Equality is such a rule, and the one that the control plane's entries follow. */
  lemma OwnNoncesAreARule(entries: seq<LedgerEntry>)
    ensures OneNonceEach((x, r) => x == r) && (Follows((x, r) => x == r, entries) <==> CarriesOwnNonces(entries))
  {
  }

  ghost function SumCredits(receipts: set<SignedReceipt>): real {
    if receipts == {} then 0.0
    else
      var sr :| sr in receipts;
      CreditForReceipt(sr) + SumCredits(receipts - {sr})
  }

  lemma {:induction false} SumCreditsInsert(receipts: set<SignedReceipt>, sr: SignedReceipt)
    requires sr !in receipts
    ensures SumCredits(receipts + {sr}) == CreditForReceipt(sr) + SumCredits(receipts)
  {
    var all := receipts + {sr};
    var x :| x in all && SumCredits(all) == CreditForReceipt(x) + SumCredits(all - {x});
    if x == sr {
      assert all - {x} == receipts;
    } else {
      assert all - {x} == (receipts - {x}) + {sr};
      SumCreditsInsert(receipts - {x}, sr);
      SumCreditsInsert(receipts - {x}, x);
      assert (receipts - {x}) + {x} == receipts;
    }
  }

  /** The distinct receipts that back an account's verified work. */
  ghost function Backing(entries: seq<LedgerEntry>, account: NodeId): set<SignedReceipt> {
    if entries == [] then {}
    else
      var e := entries[|entries| - 1];
      Backing(entries[..|entries| - 1], account) + if Earns(e, account) then {e.receipt.value} else {}
  }

  lemma {:induction false} BackingNonces(entries: seq<LedgerEntry>, account: NodeId)
    requires CarriesOwnNonces(entries)
    ensures forall sr :: sr in Backing(entries, account) ==> sr.receipt.challengeNonce in Nonces(entries)
  {
    if entries != [] {
      var shorter, e := entries[..|entries| - 1], entries[|entries| - 1];
      assert entries == shorter + [e];
      assert forall x :: x in shorter ==> x in entries;
      BackingNonces(shorter, account);
      NoncesSnoc(shorter, e);
    }
  }

  lemma LastIsNew(c: Crypto, shorter: seq<LedgerEntry>, e: LedgerEntry)
    requires SoundEntries(c, shorter + [e])
    ensures SoundEntries(c, shorter)
    ensures e.body.reason == VerifiedWork ==> e.body.challengeNonce !in Nonces(shorter)
  {
    SoundEntriesConcat(c, shorter, [e]);
    assert EntryFault(c, [e][0], Nonces(shorter), true).None?;
  }

  lemma {:induction false} EarnedIsSum(c: Crypto, entries: seq<LedgerEntry>, account: NodeId)
    requires SoundEntries(c, entries) && CarriesOwnNonces(entries)
    ensures Earned(entries, account) == SumCredits(Backing(entries, account))
  {
    if entries != [] {
      var shorter, e := entries[..|entries| - 1], entries[|entries| - 1];
      assert entries == shorter + [e];
      LastIsNew(c, shorter, e);
      assert forall x :: x in shorter ==> x in entries;
      EarnedIsSum(c, shorter, account);
      BackingNonces(shorter, account);
      assert e in entries;
      EarnedStep(entries, account);
    }
  }

  lemma EarnedStep(entries: seq<LedgerEntry>, account: NodeId)
    requires entries != []
    requires var shorter := entries[..|entries| - 1];
             Earned(shorter, account) == SumCredits(Backing(shorter, account))
    requires var e := entries[|entries| - 1];
             Earns(e, account) ==> e.receipt.value !in Backing(entries[..|entries| - 1], account)
    ensures Earned(entries, account) == SumCredits(Backing(entries, account))
  {
    var shorter, e := entries[..|entries| - 1], entries[|entries| - 1];
    if Earns(e, account) {
      SumCreditsInsert(Backing(shorter, account), e.receipt.value);
    } else {
      assert Backing(entries, account) == Backing(shorter, account);
    }
  }

  /** And then nobody holds more than the sum over their distinct receipts, up to tolerance and
      rounding. */
  lemma NoMintingOverReceipts(c: Crypto, blocks: seq<Block>, account: NodeId)
    requires ChainFault(c, blocks).None? && CarriesOwnNonces(Entries(blocks))
    ensures Balance(Entries(blocks), account)
         <= SumCredits(Backing(Entries(blocks), account)) + SLACK * Count(Entries(blocks), account) as real
  {
    VerifiedIffSound(c, blocks);
    NoMinting(c, blocks, account);
    EarnedIsSum(c, Entries(blocks), account);
  }

  /** The entries made from the control plane's receipts meet the condition. */
  lemma ReceiptEntriesCarryOwnNonces(c: Crypto, events: seq<Event>, p: Producer, batches: seq<Batch>)
    requires FreshRun(c, events) && Honest(c, p)
    requires Flatten(batches) == EntriesOf(After(c, events).receipts)
    ensures ChainFault(c, ProduceAll(c, p, batches)).None?
    ensures CarriesOwnNonces(Entries(ProduceAll(c, p, batches)))
  {
    var s := After(c, events);
    EveryRunKeepsInvariant(c, events);
    ReceiptsMakeValidChain(c, s, p, batches);
    assert forall e :: e in EntriesOf(s.receipts) ==> exists r :: r in s.receipts && e == EntryOf(r);
  }
}
