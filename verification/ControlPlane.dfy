/** The control plane's accounting: registered keys, issued nonces, stored plans, the receipt table
    and the append-only credit table. */
module ControlPlane {
  import opened Receipts
  import opened Ledger

  const MAX_OUTSTANDING_NONCES := 64

  /** The part of a stored execution plan that a receipt is checked against. */
  datatype Plan = Plan(peerChain: seq<NodeId>, modelHash: string)

  datatype CreditRow = CreditRow(node: NodeId, delta: real, receiptId: string)

  /** `issued` is kept in memory only; the other tables are in the database. `minted` is history:
      every nonce ever handed out, with the node it went to. */
  datatype State = State(
    nodes: map<NodeId, Key>, plans: map<string, Plan>, receipts: seq<SignedReceipt>,
    credits: seq<CreditRow>, issued: map<NodeId, set<string>>, minted: map<string, NodeId>)

  /** `signed` says whether the request's signature is there and verifies; `nonce` is the random
      token the server draws, and `evicted` the one it drops from a full bucket. */
  datatype Event =
    | Register(node: NodeId, key: Key, signed: bool, nonce: string, evicted: string)
    | Heartbeat(node: NodeId, signed: bool, nonce: string, evicted: string)
    | Schedule(planId: string, plan: Plan)
    | Submit(receipt: SignedReceipt, now: real)
    | Restart

  datatype Reply =
    | Issued(nonce: string) | Stored | Credited(credit: real)
    | UnknownNode | KeyDoesNotDeriveNode | BadRequestSignature | KeyMismatch | BadSignature
    | UnknownPlan | NotInPlan | WrongModel | NonceNotIssued | Implausible | Duplicate

  function Outstanding(s: State, node: NodeId): set<string> {
    if node in s.issued then s.issued[node] else {}
  }

  function Bucket(bucket: set<string>, nonce: string, evicted: string): set<string> {
    (if |bucket| >= MAX_OUTSTANDING_NONCES then bucket - {evicted} else bucket) + {nonce}
  }

  /** What is dropped from a full bucket is one of the nonces in it. */
  predicate Evicts(s: State, node: NodeId, evicted: string) {
    |Outstanding(s, node)| >= MAX_OUTSTANDING_NONCES ==> evicted in Outstanding(s, node)
  }

  function Issue(s: State, node: NodeId, nonce: string, evicted: string): State {
    s.(issued := s.issued[node := Bucket(Outstanding(s, node), nonce, evicted)],
       minted := s.minted[nonce := node])
  }

  function RegisterReply(c: Crypto, e: Event): Reply
    requires e.Register?
  {
    if !c.keyParses(e.key) || c.nodeIdOf(e.key) != e.node then KeyDoesNotDeriveNode
    else if !e.signed then BadRequestSignature
    else Issued(e.nonce)
  }

  function HeartbeatReply(s: State, e: Event): Reply
    requires e.Heartbeat?
  {
    if e.node !in s.nodes then UnknownNode
    else if !e.signed then BadRequestSignature
    else Issued(e.nonce)
  }

  /** The two UNIQUE constraints of the receipt table. */
  predicate Collides(rows: seq<SignedReceipt>, r: WorkReceipt) {
    exists row :: row in rows && (row.receipt.receiptId == r.receiptId
      || (row.receipt.nodeId == r.nodeId && row.receipt.challengeNonce == r.challengeNonce))
  }

  predicate Plausible(r: WorkReceipt, now: real) {
    var elapsedMs := (r.finishedAt - r.startedAt) * 1000.0;
    r.finishedAt <= now + 60.0 && elapsedMs >= 0.0 && r.work.gpuActiveMs <= elapsedMs * 1.05 + 1000.0
  }

  function SubmitReply(c: Crypto, s: State, sr: SignedReceipt, now: real): Reply {
    var r := sr.receipt;
    if r.nodeId !in s.nodes then UnknownNode
    else if sr.key != s.nodes[r.nodeId] then KeyMismatch
    else if !c.verifies(sr.key, c.receiptJson(r), sr.signature) then BadSignature
    else if r.planId !in s.plans then UnknownPlan
    else if r.nodeId !in s.plans[r.planId].peerChain then NotInPlan
    else if r.modelHash != s.plans[r.planId].modelHash then WrongModel
    else if r.challengeNonce !in Outstanding(s, r.nodeId) then NonceNotIssued
    else if !Plausible(r, now) then Implausible
    else if Collides(s.receipts, r) then Duplicate
    else Credited(CreditForReceipt(sr))
  }

  function Next(c: Crypto, s: State, e: Event): State {
    match e
    case Register(node, key, _, nonce, evicted) =>
      if RegisterReply(c, e).Issued? then Issue(s.(nodes := s.nodes[node := key]), node, nonce, evicted) else s
    case Heartbeat(node, _, nonce, evicted) =>
      if HeartbeatReply(s, e).Issued? then Issue(s, node, nonce, evicted) else s
    case Schedule(planId, plan) => s.(plans := s.plans[planId := plan])
    case Submit(sr, now) =>
      if SubmitReply(c, s, sr, now).Credited? then
        var r := sr.receipt;
        s.(receipts := s.receipts + [sr],
           credits := s.credits + [CreditRow(r.nodeId, CreditForReceipt(sr), r.receiptId)],
           issued := s.issued[r.nodeId := Outstanding(s, r.nodeId) - {r.challengeNonce}])
      else s
    case Restart => s.(issued := map[])
  }

  const Fresh: State := State(map[], map[], [], [], map[], map[])

  /** SUM(delta) over a node's rows. */
  function StoreBalance(rows: seq<CreditRow>, node: NodeId): real {
    if rows == [] then 0.0
    else
      var last := rows[|rows| - 1];
      StoreBalance(rows[..|rows| - 1], node) + if last.node == node then last.delta else 0.0
  }

  class Server {
    const crypto: Crypto
    var nodes: map<NodeId, Key>
    var plans: map<string, Plan>
    var receipts: seq<SignedReceipt>
    var credits: seq<CreditRow>
    var issued: map<NodeId, set<string>>
    ghost var minted: map<string, NodeId>

    ghost function Now(): State
      reads this
    {
      State(nodes, plans, receipts, credits, issued, minted)
    }

    constructor (crypto: Crypto)
      ensures this.crypto == crypto && Now() == Fresh
    {
      this.crypto := crypto;
      nodes, plans, receipts, credits, issued, minted := map[], map[], [], [], map[], map[];
    }

    method IssueNonce(node: NodeId, nonce: string) returns (ghost evicted: string)
      modifies this`issued, this`minted
      ensures Now() == Issue(old(Now()), node, nonce, evicted)
      ensures Evicts(old(Now()), node, evicted)
    {
      var bucket := if node in issued then issued[node] else {};
      evicted := "";
      if |bucket| >= MAX_OUTSTANDING_NONCES {
        var victim :| victim in bucket;
        bucket := bucket - {victim};
        evicted := victim;
      }
      issued := issued[node := bucket + {nonce}];
      minted := minted[nonce := node];
    }

    method RegisterNode(node: NodeId, key: Key, signed: bool, nonce: string)
      returns (reply: Reply, ghost event: Event)
      modifies this
      ensures event.Register? && event == Register(node, key, signed, nonce, event.evicted)
      ensures reply == RegisterReply(crypto, event)
      ensures Now() == Next(crypto, old(Now()), event)
      ensures reply.Issued? ==> Evicts(old(Now()), node, event.evicted)
    {
      event := Register(node, key, signed, nonce, "");
      if !crypto.keyParses(key) || crypto.nodeIdOf(key) != node {
        return KeyDoesNotDeriveNode, event;
      }
      if !signed {
        return BadRequestSignature, event;
      }
      nodes := nodes[node := key];
      ghost var evicted := IssueNonce(node, nonce);
      reply := Issued(nonce);
      event := Register(node, key, signed, nonce, evicted);
    }

    method ReceiveHeartbeat(node: NodeId, signed: bool, nonce: string)
      returns (reply: Reply, ghost event: Event)
      modifies this
      ensures event.Heartbeat? && event == Heartbeat(node, signed, nonce, event.evicted)
      ensures reply == HeartbeatReply(old(Now()), event)
      ensures Now() == Next(crypto, old(Now()), event)
      ensures reply.Issued? ==> Evicts(old(Now()), node, event.evicted)
    {
      event := Heartbeat(node, signed, nonce, "");
      if node !in nodes {
        return UnknownNode, event;
      }
      if !signed {
        return BadRequestSignature, event;
      }
      ghost var evicted := IssueNonce(node, nonce);
      reply := Issued(nonce);
      event := Heartbeat(node, signed, nonce, evicted);
    }

    method StorePlan(planId: string, plan: Plan)
      modifies this`plans
      ensures Now() == Next(crypto, old(Now()), Schedule(planId, plan))
    {
      plans := plans[planId := plan];
    }

    /** INSERT INTO receipts; false is the IntegrityError of either UNIQUE constraint. */
    method PutReceipt(sr: SignedReceipt) returns (ok: bool)
      modifies this`receipts
      ensures ok <==> !Collides(old(receipts), sr.receipt)
      ensures receipts == if ok then old(receipts) + [sr] else old(receipts)
    {
      for i := 0 to |receipts|
        invariant forall k :: 0 <= k < i ==>
          receipts[k].receipt.receiptId != sr.receipt.receiptId
          && !(receipts[k].receipt.nodeId == sr.receipt.nodeId
               && receipts[k].receipt.challengeNonce == sr.receipt.challengeNonce)
      {
        var row := receipts[i].receipt;
        if row.receiptId == sr.receipt.receiptId
           || (row.nodeId == sr.receipt.nodeId && row.challengeNonce == sr.receipt.challengeNonce) {
          assert receipts[i] in receipts;
          return false;
        }
      }
      ok := true;
      receipts := receipts + [sr];
    }

    method SubmitReceipt(sr: SignedReceipt, now: real) returns (reply: Reply)
      modifies this
      ensures reply == SubmitReply(crypto, old(Now()), sr, now)
      ensures Now() == Next(crypto, old(Now()), Submit(sr, now))
    {
      var r := sr.receipt;
      if r.nodeId !in nodes {
        return UnknownNode;
      }
      if sr.key != nodes[r.nodeId] {
        return KeyMismatch;
      }
      if !crypto.verifies(sr.key, crypto.receiptJson(r), sr.signature) {
        return BadSignature;
      }
      if r.planId !in plans {
        return UnknownPlan;
      }
      if r.nodeId !in plans[r.planId].peerChain {
        return NotInPlan;
      }
      if r.modelHash != plans[r.planId].modelHash {
        return WrongModel;
      }
      if r.nodeId !in issued || r.challengeNonce !in issued[r.nodeId] {
        return NonceNotIssued;
      }
      var elapsedMs := (r.finishedAt - r.startedAt) * 1000.0;
      if r.finishedAt > now + 60.0 || elapsedMs < 0.0 || r.work.gpuActiveMs > elapsedMs * 1.05 + 1000.0 {
        return Implausible;
      }
      var ok := PutReceipt(sr);
      if !ok {
        return Duplicate;
      }
      issued := issued[r.nodeId := issued[r.nodeId] - {r.challengeNonce}];
      var credited := CreditForReceipt(sr);
      credits := credits + [CreditRow(r.nodeId, credited, r.receiptId)];
      reply := Credited(credited);
    }

    /** The process starts again over the same database. */
    method RestartProcess()
      modifies this`issued
      ensures Now() == Next(crypto, old(Now()), Restart)
    {
      issued := map[];
    }

    method Balance(node: NodeId) returns (sum: real)
      ensures sum == StoreBalance(credits, node)
    {
      sum := 0.0;
      for i := 0 to |credits|
        invariant sum == StoreBalance(credits[..i], node)
      {
        assert credits[..i + 1][..i] == credits[..i];
        if credits[i].node == node {
          sum := sum + credits[i].delta;
        }
      }
      assert credits[..|credits|] == credits;
    }
  }
}
