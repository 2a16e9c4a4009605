/** What a run of the control plane says about its receipts, over the run's own events. */
module Accounting {
  import opened Receipts
  import opened Ledger
  import opened ControlPlane
  import opened TwoLedgers

  // ---- plans -------------------------------------------------------------------------------------

  /** Event m stored this plan, and no event from there up to n stored another one under its id. */
  predicate InForce(events: seq<Event>, m: nat, n: nat, id: string, plan: Plan)
    requires m < n <= |events|
  {
    && events[m] == Schedule(id, plan)
    && forall l :: m < l < n && events[l].Schedule? ==> events[l].planId != id
  }

  lemma {:induction false} PlansWereScheduled(c: Crypto, events: seq<Event>, id: string) returns (m: nat)
    requires id in After(c, events).plans
    ensures m < |events| && InForce(events, m, |events|, id, After(c, events).plans[id])
  {
    var n := |events| - 1;
    var before := After(c, events[..n]);
    PlansGrow(c, before, events[n]);
    if events[n].Schedule? && events[n].planId == id {
      m := n;
    } else {
      m := PlansWereScheduled(c, events[..n], id);
      assert events[..n][m] == events[m];
      assert forall l :: m < l < n ==> events[..n][l] == events[l];
    }
  }

  lemma PlansGrow(c: Crypto, s: State, e: Event)
    ensures Next(c, s, e).plans == if e.Schedule? then s.plans[e.planId := e.plan] else s.plans
  {
  }

  // ---- receipts ----------------------------------------------------------------------------------

  /** Accepted receipt i was submitted by some event, when the receipts before it had been accepted. */
  lemma {:induction false} ReceiptsWereSubmitted(c: Crypto, events: seq<Event>, i: nat) returns (n: nat)
    requires i < |After(c, events).receipts|
    ensures n < |events| && events[n].Submit? && events[n].receipt == After(c, events).receipts[i]
    ensures SubmitReply(c, After(c, events[..n]), events[n].receipt, events[n].now).Credited?
    decreases |events|
  {
    var last := |events| - 1;
    var before := After(c, events[..last]);
    RowsGrow(c, before, events[last]);
    if i < |before.receipts| {
      n := ReceiptsWereSubmitted(c, events[..last], i);
      assert events[..last][..n] == events[..n] && events[..last][n] == events[n];
    } else {
      n := last;
      AddedIsCredited(c, before, events[n]);
    }
  }

  lemma AddedIsCredited(c: Crypto, s: State, e: Event)
    requires |Next(c, s, e).receipts| > |s.receipts|
    ensures e.Submit? && SubmitReply(c, s, e.receipt, e.now).Credited?
    ensures Next(c, s, e).receipts == s.receipts + [e.receipt]
  {
  }

  /** Exactly when a receipt is credited, and with what. */
  lemma CreditedIff(c: Crypto, s: State, sr: SignedReceipt, now: real)
    ensures var r := sr.receipt;
            SubmitReply(c, s, sr, now).Credited? <==>
              && r.nodeId in s.nodes && s.nodes[r.nodeId] == sr.key
              && c.verifies(sr.key, c.receiptJson(r), sr.signature)
              && r.planId in s.plans
              && r.nodeId in s.plans[r.planId].peerChain && r.modelHash == s.plans[r.planId].modelHash
              && r.nodeId in s.issued && r.challengeNonce in s.issued[r.nodeId]
              && r.startedAt <= r.finishedAt <= now + 60.0
              && r.work.gpuActiveMs <= 1050.0 * (r.finishedAt - r.startedAt) + 1000.0
              && forall row :: row in s.receipts ==>
                   && row.receipt.receiptId != r.receiptId
                   && (row.receipt.nodeId == r.nodeId ==> row.receipt.challengeNonce != r.challengeNonce)
    ensures SubmitReply(c, s, sr, now).Credited? ==>
              SubmitReply(c, s, sr, now).credit == CreditForReceipt(sr)
  {
  }

  /** Over every run: work that was credited had been scheduled. The plan in force when the receipt came
      in names the node and the model, and the measured time fits the time the work took. */
  lemma CreditedWorkWasScheduled(c: Crypto, events: seq<Event>, i: nat) returns (m: nat, n: nat, plan: Plan)
    requires i < |After(c, events).receipts|
    ensures m < n < |events|
    ensures var r := After(c, events).receipts[i].receipt;
            && events[n].Submit? && events[n].receipt == After(c, events).receipts[i]
            && InForce(events, m, n, r.planId, plan)
            && r.nodeId in plan.peerChain && plan.modelHash == r.modelHash
            && r.startedAt <= r.finishedAt <= events[n].now + 60.0
            && r.work.gpuActiveMs <= 1050.0 * (r.finishedAt - r.startedAt) + 1000.0
  {
    n := ReceiptsWereSubmitted(c, events, i);
    var s, sr := After(c, events[..n]), events[n].receipt;
    CreditedIff(c, s, sr, events[n].now);
    plan := s.plans[sr.receipt.planId];
    m := PlansWereScheduled(c, events[..n], sr.receipt.planId);
    assert events[..n][m] == events[m];
    assert forall l :: m < l < n ==> events[..n][l] == events[l];
  }

  // ---- nonces ------------------------------------------------------------------------------------

  /** Exactly when a registration or a heartbeat is given a nonce. */
  lemma IssuedIff(c: Crypto, s: State, e: Event)
    ensures e.Register? && RegisterReply(c, e).Issued? <==>
              e.Register? && c.keyParses(e.key) && c.nodeIdOf(e.key) == e.node && e.signed
    ensures e.Heartbeat? && HeartbeatReply(s, e).Issued? <==> e.Heartbeat? && e.node in s.nodes && e.signed
    ensures e.Register? && RegisterReply(c, e).Issued? ==> RegisterReply(c, e).nonce == e.nonce
    ensures e.Heartbeat? && HeartbeatReply(s, e).Issued? ==> HeartbeatReply(s, e).nonce == e.nonce
  {
  }

  /** What is dropped from a full bucket was in it. */
  ghost predicate EvictingRun(c: Crypto, events: seq<Event>) {
    events != [] ==>
      var shorter, e := events[..|events| - 1], events[|events| - 1];
      && EvictingRun(c, shorter)
      && (e.Register? ==> Evicts(After(c, shorter), e.node, e.evicted))
      && (e.Heartbeat? ==> Evicts(After(c, shorter), e.node, e.evicted))
  }

  lemma BucketBounded(bucket: set<string>, nonce: string, evicted: string)
    requires |bucket| <= 64 && (|bucket| == 64 ==> evicted in bucket)
    ensures |Bucket(bucket, nonce, evicted)| <= 64
  {
  }

  lemma OthersKeepTheirs(c: Crypto, s: State, e: Event, node: NodeId)
    ensures Outstanding(Next(c, s, e), node) <= Outstanding(s, node)
         || ((e.Register? || e.Heartbeat?) && e.node == node
             && Outstanding(Next(c, s, e), node) == Bucket(Outstanding(s, node), e.nonce, e.evicted))
  {
  }

  lemma SubsetSize<T>(a: set<T>, b: set<T>)
    requires a <= b
    ensures |a| <= |b|
  {
    assert b == a + (b - a);
  }

  /** Over every run, no node has more than 64 outstanding nonces. */
  lemma {:induction false} AtMost64Outstanding(c: Crypto, events: seq<Event>, node: NodeId)
    requires EvictingRun(c, events)
    ensures |Outstanding(After(c, events), node)| <= 64
  {
    if events != [] {
      var shorter, e := events[..|events| - 1], events[|events| - 1];
      var s := After(c, shorter);
      AtMost64Outstanding(c, shorter, node);
      OthersKeepTheirs(c, s, e, node);
      if Outstanding(Next(c, s, e), node) <= Outstanding(s, node) {
        SubsetSize(Outstanding(Next(c, s, e), node), Outstanding(s, node));
      } else {
        BucketBounded(Outstanding(s, node), e.nonce, e.evicted);
      }
    }
  }

  /** A node that registers, is scheduled and does the work is paid for it, whatever went before. */
  lemma ScheduledWorkIsCredited(c: Crypto, s: State, sr: SignedReceipt, evicted: string, plan: Plan, now: real)
    requires var r := sr.receipt;
             && c.keyParses(sr.key) && c.nodeIdOf(sr.key) == r.nodeId
             && c.verifies(sr.key, c.receiptJson(r), sr.signature)
             && r.nodeId in plan.peerChain && r.modelHash == plan.modelHash
             && r.startedAt <= r.finishedAt <= now + 60.0
             && r.work.gpuActiveMs <= 1050.0 * (r.finishedAt - r.startedAt) + 1000.0
    requires forall row :: row in s.receipts ==>
               row.receipt.receiptId != sr.receipt.receiptId && row.receipt.challengeNonce != sr.receipt.challengeNonce
    ensures var r := sr.receipt;
            var registered := Next(c, s, Register(r.nodeId, sr.key, true, r.challengeNonce, evicted));
            var scheduled := Next(c, registered, Schedule(r.planId, plan));
            var paid := Next(c, scheduled, Submit(sr, now));
            && SubmitReply(c, scheduled, sr, now) == Credited(CreditForReceipt(sr))
            && paid.receipts == s.receipts + [sr]
            && paid.credits == s.credits + [CreditRow(r.nodeId, CreditForReceipt(sr), r.receiptId)]
            && r.challengeNonce !in Outstanding(paid, r.nodeId)
  {
    var r := sr.receipt;
    var registered := Next(c, s, Register(r.nodeId, sr.key, true, r.challengeNonce, evicted));
    var scheduled := Next(c, registered, Schedule(r.planId, plan));
    CreditedIff(c, scheduled, sr, now);
  }

  /** A heartbeat of a registered node gives it a nonce that it can use. */
  lemma HeartbeatIssues(c: Crypto, s: State, node: NodeId, nonce: string, evicted: string)
    requires node in s.nodes
    ensures var t := Next(c, s, Heartbeat(node, true, nonce, evicted));
            && nonce in Outstanding(t, node)
            && (forall x :: x in Outstanding(s, node) && |Outstanding(s, node)| < 64 ==> x in Outstanding(t, node))
            && t.nodes == s.nodes && t.plans == s.plans && t.receipts == s.receipts && t.credits == s.credits
  {
  }

  /** A restart of the process voids every outstanding nonce and keeps the tables. */
  lemma RestartVoids(c: Crypto, s: State, node: NodeId)
    ensures var t := Next(c, s, Restart);
            && Outstanding(t, node) == {}
            && t.nodes == s.nodes && t.plans == s.plans && t.receipts == s.receipts && t.credits == s.credits
  {
  }
}
