/** Signed work receipts and the credit formula both ledgers use. */
module Receipts {
  import opened Rounding

  /** Node ids are "nd_" and 32 lower-case hex digits: equally long, so their string order is the
      order of the numbers they spell. */
  type NodeId = nat

  /** A public key, as its base64 text. */
  type Key = string

  datatype Outcome = Done | Partial | Failed | Cancelled

  datatype MeasuredWork = MeasuredWork(gpuActiveMs: real, tokensGenerated: int)

  datatype WorkReceipt = WorkReceipt(
    receiptId: string, planId: string, nodeId: NodeId, modelHash: string, work: MeasuredWork,
    startedAt: real, finishedAt: real, outcome: Outcome, challengeNonce: string)

  datatype SignedReceipt = SignedReceipt(receipt: WorkReceipt, key: Key, signature: string)

  function CreditForReceipt(sr: SignedReceipt): real {
    var r := sr.receipt;
    if r.outcome != Done && r.outcome != Partial then 0.0
    else if r.work.tokensGenerated != 0 then r.work.tokensGenerated as real
    else Round(r.work.gpuActiveMs / 1000.0, MILLI)
  }

  /** Credits come in thousandths: no sum of them is ever rounded. */
  lemma CreditOnGrid(sr: SignedReceipt)
    ensures OnGrid(CreditForReceipt(sr), MILLI)
  {
    WholeOnGrid(0);
    WholeOnGrid(sr.receipt.work.tokensGenerated);
    RoundLandsOnGrid(sr.receipt.work.gpuActiveMs / 1000.0, MILLI);
  }

  /** Work that failed or was cancelled earns nothing; other work its tokens, or without tokens its GPU
      seconds, to the nearest thousandth. */
  lemma CreditIs(sr: SignedReceipt)
    ensures var r, credit := sr.receipt, CreditForReceipt(sr);
            if r.outcome == Failed || r.outcome == Cancelled then credit == 0.0
            else if r.work.tokensGenerated != 0 then credit == r.work.tokensGenerated as real
            else -0.0005 <= credit - r.work.gpuActiveMs / 1000.0 <= 0.0005 && OnGrid(credit, MILLI)
  {
    RoundIsNear(sr.receipt.work.gpuActiveMs / 1000.0, MILLI);
    CreditOnGrid(sr);
  }
}
