/** What a plan costs, in seconds, written over the nodes' rates, the link table and the load map; and
    that the scheduler takes the plan that costs least. */
module PlanCost {
  import opened Receipts
  import opened Topology
  import opened Scheduler
  import opened SchedulerSafety

  // ---- what is measured --------------------------------------------------------------------------

  /** A benchmark, or what is assumed without one. */
  function Measure(benchmark: real, assumed: real): real {
    if benchmark > 0.0 then benchmark else assumed
  }

  function DecodeRate(c: Cost, n: Node): (r: real)
    ensures r > 0.0
  {
    Measure(n.decode, c.defaultDecode)
  }

  function PrefillRate(c: Cost, n: Node): (r: real)
    ensures r > 0.0
  {
    Measure(n.prefill, c.defaultPrefill)
  }

  /** Round trip in milliseconds, megabits per second, and stability. */
  datatype Edge = Edge(rttMs: real, mbps: real, stability: real)

  const NEAREST: Edge := Edge(0.05, 1000000000.0, 1.0)

  /** A table entry; one host is 0.05 ms away from itself, and a link that nobody measured is taken to be
      120 ms long, with 100 Mbit/s and a stability of 0.7. */
  function EdgeBetween(links: Links, a: NodeId, b: NodeId): Edge {
    if a == b then Edge(0.05, 100000.0, 1.0)
    else if a in links && b in links[a] then
      Edge(links[a][b].rttMs, links[a][b].throughputMbps, links[a][b].stability)
    else Edge(120.0, 100.0, 0.7)
  }

  function Queued(req: Request, n: Node): int {
    if n.id in req.load then req.load[n.id] else 0
  }

  function Away(req: Request, n: Node): real {
    EdgeBetween(req.links, req.client, n.id).rttMs / 1000.0
  }

  predicate IsLeast(x: real, values: seq<real>) {
    x in values && forall v :: v in values ==> x <= v
  }

  predicate IsMost(x: int, values: seq<int>) {
    x in values && forall v :: v in values ==> v <= x
  }

  function DecodeRatesOf(c: Cost, nodes: seq<Node>): (r: seq<real>)
    ensures |r| == |nodes| && forall i :: 0 <= i < |r| ==> r[i] == DecodeRate(c, nodes[i])
  {
    seq(|nodes|, i requires 0 <= i < |nodes| => DecodeRate(c, nodes[i]))
  }

  function PrefillRatesOf(c: Cost, nodes: seq<Node>): (r: seq<real>)
    ensures |r| == |nodes| && forall i :: 0 <= i < |r| ==> r[i] == PrefillRate(c, nodes[i])
  {
    seq(|nodes|, i requires 0 <= i < |nodes| => PrefillRate(c, nodes[i]))
  }

  function QueuesOf(req: Request, nodes: seq<Node>): (r: seq<int>)
    ensures |r| == |nodes| && forall i :: 0 <= i < |r| ==> r[i] == Queued(req, nodes[i])
  {
    seq(|nodes|, i requires 0 <= i < |nodes| => Queued(req, nodes[i]))
  }

  /** The edges of the chain, one after the other. */
  function Hop(links: Links, chain: seq<Node>, i: nat): Edge
    requires i + 1 < |chain|
  {
    EdgeBetween(links, chain[i].id, chain[i + 1].id)
  }

  /** e is the first one of longest round trip, unless all are as near as one host. */
  ghost predicate IsWorst(e: Edge, links: Links, chain: seq<Node>) {
    || (e == NEAREST && forall i: nat :: i + 1 < |chain| ==> Hop(links, chain, i).rttMs <= 0.05)
    || exists k: nat :: k + 1 < |chain| && FirstWorst(e, links, chain, k)
  }

  ghost predicate FirstWorst(e: Edge, links: Links, chain: seq<Node>, k: nat)
    requires k + 1 < |chain|
  {
    && e == Hop(links, chain, k) && e.rttMs > 0.05
    && (forall i: nat :: i + 1 < |chain| ==> Hop(links, chain, i).rttMs <= e.rttMs)
    && (forall i: nat :: i < k ==> Hop(links, chain, i).rttMs < e.rttMs)
  }

  lemma LinkIsEdge(links: Links, a: NodeId, b: NodeId)
    ensures var l := LinkBetween(links, a, b);
            EdgeBetween(links, a, b) == Edge(l.rttMs, l.throughputMbps, l.stability)
  {
  }

  lemma RatesAre(c: Cost, n: Node)
    ensures DecodeTps(c, n) == DecodeRate(c, n) && PrefillTps(c, n) == PrefillRate(c, n)
  {
  }

  lemma {:induction false} MinDecodeIs(c: Cost, nodes: seq<Node>)
    requires nodes != []
    ensures IsLeast(MinDecode(c, nodes), DecodeRatesOf(c, nodes))
  {
    var n := |nodes| - 1;
    RatesAre(c, nodes[n]);
    if n > 0 {
      MinDecodeIs(c, nodes[..n]);
      assert DecodeRatesOf(c, nodes) == DecodeRatesOf(c, nodes[..n]) + [DecodeRate(c, nodes[n])];
    } else {
      assert DecodeRatesOf(c, nodes) == [DecodeRate(c, nodes[0])];
    }
  }

  lemma {:induction false} MinPrefillIs(c: Cost, nodes: seq<Node>)
    requires nodes != []
    ensures IsLeast(MinPrefill(c, nodes), PrefillRatesOf(c, nodes))
  {
    var n := |nodes| - 1;
    RatesAre(c, nodes[n]);
    if n > 0 {
      MinPrefillIs(c, nodes[..n]);
      assert PrefillRatesOf(c, nodes) == PrefillRatesOf(c, nodes[..n]) + [PrefillRate(c, nodes[n])];
    } else {
      assert PrefillRatesOf(c, nodes) == [PrefillRate(c, nodes[0])];
    }
  }

  lemma {:induction false} MaxLoadIs(req: Request, nodes: seq<Node>)
    requires nodes != []
    ensures IsMost(MaxLoad(req, nodes), QueuesOf(req, nodes))
  {
    var n := |nodes| - 1;
    if n > 0 {
      MaxLoadIs(req, nodes[..n]);
      assert QueuesOf(req, nodes) == QueuesOf(req, nodes[..n]) + [Queued(req, nodes[n])];
    } else {
      assert QueuesOf(req, nodes) == [Queued(req, nodes[0])];
    }
  }

  function Total(values: seq<real>): real {
    if values == [] then 0.0 else values[0] + Total(values[1..])
  }

  lemma {:induction false} TotalSnoc(values: seq<real>, x: real)
    ensures Total(values + [x]) == Total(values) + x
  {
    if values != [] {
      TotalSnoc(values[1..], x);
      assert (values + [x])[1..] == values[1..] + [x];
    }
  }

  lemma {:induction false} SumPrefillIs(c: Cost, nodes: seq<Node>)
    ensures SumPrefill(c, nodes) == Total(PrefillRatesOf(c, nodes))
  {
    if nodes != [] {
      var n := |nodes| - 1;
      RatesAre(c, nodes[n]);
      SumPrefillIs(c, nodes[..n]);
      assert PrefillRatesOf(c, nodes) == PrefillRatesOf(c, nodes[..n]) + [PrefillRate(c, nodes[n])];
      TotalSnoc(PrefillRatesOf(c, nodes[..n]), PrefillRate(c, nodes[n]));
    }
  }

  function WorstEdge(links: Links, chain: seq<Node>): Edge {
    var w := WorstLink(links, chain);
    Edge(w.rttMs, w.throughputMbps, w.stability)
  }

  lemma WorstOneMore(links: Links, chain: seq<Node>, e: Edge, f: Edge)
    requires |chain| >= 2 && IsWorst(e, links, chain[..|chain| - 1])
    requires f == (if Hop(links, chain, |chain| - 2).rttMs > e.rttMs then Hop(links, chain, |chain| - 2) else e)
    ensures IsWorst(f, links, chain)
  {
    var shorter, last := chain[..|chain| - 1], Hop(links, chain, |chain| - 2);
    assert forall i: nat :: i + 1 < |shorter| ==> Hop(links, shorter, i) == Hop(links, chain, i);
    if last.rttMs > e.rttMs {
      assert FirstWorst(f, links, chain, |chain| - 2);
    } else if k: nat :| k + 1 < |shorter| && FirstWorst(e, links, shorter, k) {
      assert FirstWorst(f, links, chain, k);
    }
  }

  lemma {:induction false} WorstLinkIs(links: Links, chain: seq<Node>)
    ensures IsWorst(WorstEdge(links, chain), links, chain)
  {
    if |chain| > 1 {
      WorstLinkIs(links, chain[..|chain| - 1]);
      LinkIsEdge(links, chain[|chain| - 2].id, chain[|chain| - 1].id);
      WorstOneMore(links, chain, WorstEdge(links, chain[..|chain| - 1]), WorstEdge(links, chain));
    }
  }

  // ---- what a plan costs -------------------------------------------------------------------------

  /** 256 tokens at this rate. */
  function AnswerTime(rate: real): real {
    if rate > 0.0 then 256.0 / rate else 1000000000.0
  }

  function QueueTime(queued: int, rate: real): real {
    if rate > 0.0 then queued as real * (256.0 / rate) else 0.0
  }

  /** The prompt, shared out among nodes of these rates together. */
  function PromptTime(tokens: real, together: real, efficiency: real): real
    requires together > 0.0 && efficiency > 0.0
  {
    tokens / (together * efficiency)
  }

  /** The rate of a pod: each member after the first adds a share of the slowest rate. */
  function PodRate(slowest: real, members: int, efficiency: real): real {
    slowest * (1.0 + (members - 1) as real * efficiency)
  }

  /** The price of a link that may drop. */
  function Risk(stability: real, price: real): real {
    (1.0 - stability) * price
  }

  /** Those ahead in the queue, the prompt, the way to the node, and the answer. */
  function AloneTime(c: Cost, req: Request, n: Node): real {
    Queued(req, n) as real * (256.0 / DecodeRate(c, n))
    + req.promptTokens as real / PrefillRate(c, n) + Away(req, n) + 256.0 / DecodeRate(c, n)
  }

  /** A verifier whose rate a draft multiplies. */
  function DraftTime(c: Cost, req: Request, n: Node): real {
    var rate := DecodeRate(c, n) * c.speculativeSpeedup;
    QueueTime(Queued(req, n), rate)
    + req.promptTokens as real / PrefillRate(c, n) + Away(req, n) + AnswerTime(rate)
  }

  /** Two nodes, one after the other for every token: the prompt at the slower one's rate, the network
      once for the first token and once for each token of the answer, and the risk of the link. */
  ghost predicate SplitTakes(c: Cost, req: Request, a: Node, b: Node, time: real) {
    exists e, decode, prefill ::
      && IsWorst(e, req.links, [a, b]) && e.mbps > 0.0
      && IsLeast(decode, [DecodeRate(c, a), DecodeRate(c, b)])
      && IsLeast(prefill, [PrefillRate(c, a), PrefillRate(c, b)])
      && time == SplitTime(c, req, a, e, decode, prefill)
  }

  /** What one token pays for crossing the edge, there and back, and for the bytes it carries. */
  function NetworkTime(c: Cost, e: Edge): real
    requires e.mbps > 0.0
  {
    e.rttMs / 1000.0 * c.rttMultiplierPerHop + c.activationBytesPerToken * 8.0 / (e.mbps * 1000000.0)
  }

  function SliceRate(slowest: real, efficiency: real): (r: real)
    requires slowest > 0.0 && efficiency > 0.0
    ensures r > 0.0
  {
    slowest * efficiency
  }

  /** 256 tokens, each computed and then sent. */
  function SplitAnswer(rate: real, network: real): real
    requires rate > 0.0
  {
    if 1.0 / rate + network > 0.0 then 256.0 * (1.0 / rate + network) else 1000000000.0
  }

  function SplitTime(c: Cost, req: Request, first: Node, e: Edge, decode: real, prefill: real): real
    requires decode > 0.0 && prefill > 0.0 && e.mbps > 0.0
  {
    req.promptTokens as real / prefill + NetworkTime(c, e) + Away(req, first)
    + SplitAnswer(SliceRate(decode, c.pipelineEfficiency), NetworkTime(c, e)) + Risk(e.stability, c.reliabilityPenalty)
  }

  /** A pod as one node: the slowest rate, raised by a share for each further member, all prefill rates
      together, the longest queue, and the risk of the worst link. */
  ghost predicate PodTakes(c: Cost, req: Request, pod: seq<Node>, time: real)
    requires pod != []
  {
    exists e, decode, queue ::
      && IsWorst(e, req.links, pod)
      && IsLeast(decode, DecodeRatesOf(c, pod))
      && IsMost(queue, QueuesOf(req, pod))
      && time == PodTime(c, req, pod, e, decode, queue)
  }

  function PodTime(c: Cost, req: Request, pod: seq<Node>, e: Edge, decode: real, queue: int): real
    requires pod != []
  {
    SumPrefillIs(c, pod);
    var rate := PodRate(decode, |pod|, c.tensorEfficiency);
    QueueTime(queue, rate)
    + PromptTime(req.promptTokens as real, Total(PrefillRatesOf(c, pod)), c.prefillEfficiency) + Away(req, pod[0])
    + AnswerTime(rate) + Risk(e.stability, c.reliabilityPenalty)
  }

  /** What a candidate costs. */
  ghost predicate Takes(c: Cost, req: Request, x: Candidate, time: real) {
    match x.strategy
    case Single => |x.chain| == 1 && time == AloneTime(c, req, x.chain[0])
    case Pipeline => |x.chain| == 2 && SplitTakes(c, req, x.chain[0], x.chain[1], time)
    case Tensor => |x.chain| in {2, 3} && PodTakes(c, req, x.chain, time)
    case Speculative => |x.chain| == 2 && time == DraftTime(c, req, x.chain[0])
  }

  lemma SingleTakes(c: Cost, req: Request, n: Node)
    ensures SingleCandidate(c, req, n).score == AloneTime(c, req, n)
  {
    RatesAre(c, n);
    LinkIsEdge(req.links, req.client, n.id);
  }

  lemma DraftTakes(c: Cost, req: Request, strong: Node, draft: Node)
    ensures SpeculativeCandidate(c, req, strong, draft).score == DraftTime(c, req, strong)
  {
    RatesAre(c, strong);
    LinkIsEdge(req.links, req.client, strong.id);
  }

  lemma Inverse(x: real)
    requires x > 0.0
    ensures 1.0 / x > 0.0 && 256.0 / (1.0 / x) == 256.0 * x
  {
    var y := 1.0 / x;
    assert y * x == 1.0;
    SignOfFactor(y, x);
    assert y > 0.0;
    assert 256.0 / y * y == 256.0 && 256.0 * x * y == 256.0;
    Cancel(256.0 / y, 256.0 * x, y);
  }

  lemma Cancel(a: real, b: real, y: real)
    requires y > 0.0 && a * y == b * y
    ensures a == b
  {
    assert (a - b) * y == 0.0;
    SignOfFactor(a - b, y);
    SignOfFactor(b - a, y);
  }

  lemma SplitTakesThis(c: Cost, req: Request, chain: seq<Node>)
    requires |chain| == 2
    ensures SplitTakes(c, req, chain[0], chain[1], PipelineCandidate(c, req, chain).score)
  {
    var e, decode, prefill := WorstEdge(req.links, chain), MinDecode(c, chain), MinPrefill(c, chain);
    WorstLinkIs(req.links, chain);
    MinDecodeIs(c, chain);
    MinPrefillIs(c, chain);
    assert chain == [chain[0], chain[1]];
    assert DecodeRatesOf(c, chain) == [DecodeRate(c, chain[0]), DecodeRate(c, chain[1])];
    assert PrefillRatesOf(c, chain) == [PrefillRate(c, chain[0]), PrefillRate(c, chain[1])];
    SplitScore(c, req, chain);
  }

  lemma ScoreIsSum(c: Cost, req: Request, p: Prediction, chain: seq<Node>, wait: real)
    ensures Score(c, req, p, chain, wait)
         == wait + p.0 + AnswerTime(p.1) + Risk(WorstEdge(req.links, chain).stability, c.reliabilityPenalty)
  {
  }

  lemma DelayedAnswer(rate: real, network: real)
    requires rate > 0.0
    ensures AnswerTime(Delayed(rate, network)) == SplitAnswer(rate, network)
  {
    if 1.0 / rate + network > 0.0 {
      Inverse(1.0 / rate + network);
    }
  }

  lemma NetworkOfTwo(c: Cost, req: Request, chain: seq<Node>)
    requires |chain| == 2
    ensures var e := WorstEdge(req.links, chain);
            e.mbps > 0.0 && NetworkPerToken(c, req, chain) == NetworkTime(c, e)
  {
  }

  lemma SliceIsRate(c: Cost, chain: seq<Node>)
    requires chain != []
    ensures SliceTps(c, chain) == SliceRate(MinDecode(c, chain), c.pipelineEfficiency)
  {
  }

  lemma SplitFirstToken(c: Cost, req: Request, chain: seq<Node>)
    requires chain != []
    ensures PredictPipeline(c, req, chain).0
         == req.promptTokens as real / MinPrefill(c, chain) + NetworkPerToken(c, req, chain) + Away(req, chain[0])
    ensures PredictPipeline(c, req, chain).1 == Delayed(SliceTps(c, chain), NetworkPerToken(c, req, chain))
  {
    LinkIsEdge(req.links, req.client, chain[0].id);
  }

  lemma SplitScore(c: Cost, req: Request, chain: seq<Node>)
    requires |chain| == 2
    ensures WorstEdge(req.links, chain).mbps > 0.0
    ensures PipelineCandidate(c, req, chain).score
         == SplitTime(c, req, chain[0], WorstEdge(req.links, chain), MinDecode(c, chain), MinPrefill(c, chain))
  {
    SplitFirstToken(c, req, chain);
    ScoreIsSum(c, req, PredictPipeline(c, req, chain), chain, 0.0);
    SliceIsRate(c, chain);
    NetworkOfTwo(c, req, chain);
    DelayedAnswer(SliceTps(c, chain), NetworkPerToken(c, req, chain));
  }

  lemma PodTakesThis(c: Cost, req: Request, pod: seq<Node>)
    requires pod != []
    ensures PodTakes(c, req, pod, TensorCandidate(c, req, pod).score)
  {
    WorstLinkIs(req.links, pod);
    MinDecodeIs(c, pod);
    MaxLoadIs(req, pod);
    PodScore(c, req, pod);
  }

  lemma PromptIsShared(tokens: real, together: real, efficiency: real)
    requires together > 0.0 && efficiency > 0.0
    ensures Shared(tokens, together, efficiency) == PromptTime(tokens, together, efficiency)
  {
  }

  lemma RateIsScaled(slowest: real, members: int, efficiency: real)
    ensures Scaled(slowest, members - 1, efficiency) == PodRate(slowest, members, efficiency)
  {
  }

  lemma PodFirstToken(c: Cost, req: Request, pod: seq<Node>)
    requires pod != []
    ensures Total(PrefillRatesOf(c, pod)) > 0.0
    ensures PredictTensor(c, req, pod).0
         == PromptTime(req.promptTokens as real, Total(PrefillRatesOf(c, pod)), c.prefillEfficiency) + Away(req, pod[0])
  {
    SumPrefillIs(c, pod);
    PromptIsShared(req.promptTokens as real, SumPrefill(c, pod), c.prefillEfficiency);
    LinkIsEdge(req.links, req.client, pod[0].id);
  }

  lemma WaitIsQueue(queue: int, rate: real)
    ensures QueueWait(queue, rate) == QueueTime(queue, rate)
  {
  }

  lemma PodScore(c: Cost, req: Request, pod: seq<Node>)
    requires pod != []
    ensures TensorCandidate(c, req, pod).score
         == PodTime(c, req, pod, WorstEdge(req.links, pod), MinDecode(c, pod), MaxLoad(req, pod))
  {
    var p := PredictTensor(c, req, pod);
    PodFirstToken(c, req, pod);
    RateIsScaled(MinDecode(c, pod), |pod|, c.tensorEfficiency);
    WaitIsQueue(MaxLoad(req, pod), p.1);
    ScoreIsSum(c, req, p, pod, QueueWait(MaxLoad(req, pod), p.1));
  }

  /** Every candidate's score is what it costs. */
  lemma EveryScoreIsTheCost(c: Cost, req: Request, k: nat)
    requires k < |Candidates(c, req)|
    ensures Takes(c, req, Candidates(c, req)[k], Candidates(c, req)[k].score)
  {
    CandidateKind(c, req, k);
    var x := Candidates(c, req)[k];
    if PipelineCandidates(c, req) == [x] {
      SplitTakesThis(c, req, TopTwo(Splitters(req)));
    } else if TensorCandidates(c, req) == [x] {
      TensorSound(c, req);
      PodTakesThis(c, req, x.chain);
    } else if SpeculativeCandidates(c, req) == [x] {
      DraftTakes(c, req, x.chain[0], x.chain[1]);
    } else {
      SingleTakes(c, req, Replicas(req)[k]);
    }
  }

  /** The time to the first token and the rate that a candidate reports. */
  ghost predicate Reports(c: Cost, req: Request, x: Candidate) {
    match x.strategy
    case Single =>
      && |x.chain| == 1 && x.decodeTps == DecodeRate(c, x.chain[0])
      && x.ttft == req.promptTokens as real / PrefillRate(c, x.chain[0]) + Away(req, x.chain[0])
    case Speculative =>
      && |x.chain| == 2 && x.decodeTps == DecodeRate(c, x.chain[0]) * c.speculativeSpeedup
      && x.ttft == req.promptTokens as real / PrefillRate(c, x.chain[0]) + Away(req, x.chain[0])
    case Tensor =>
      && |x.chain| in {2, 3} && Total(PrefillRatesOf(c, x.chain)) > 0.0
      && x.ttft == PromptTime(req.promptTokens as real, Total(PrefillRatesOf(c, x.chain)), c.prefillEfficiency)
                   + Away(req, x.chain[0])
      && exists decode :: IsLeast(decode, DecodeRatesOf(c, x.chain))
                && x.decodeTps == PodRate(decode, |x.chain|, c.tensorEfficiency)
    case Pipeline =>
      && |x.chain| == 2
      && exists e, decode, prefill ::
           && IsWorst(e, req.links, x.chain) && e.mbps > 0.0
           && IsLeast(decode, DecodeRatesOf(c, x.chain)) && IsLeast(prefill, PrefillRatesOf(c, x.chain))
           && x.ttft == req.promptTokens as real / prefill + NetworkTime(c, e) + Away(req, x.chain[0])
           && AnswerTime(x.decodeTps) == SplitAnswer(SliceRate(decode, c.pipelineEfficiency), NetworkTime(c, e))
  }

  lemma SplitReports(c: Cost, req: Request, chain: seq<Node>)
    requires |chain| == 2
    ensures Reports(c, req, PipelineCandidate(c, req, chain))
  {
    SplitFirstToken(c, req, chain);
    SliceIsRate(c, chain);
    NetworkOfTwo(c, req, chain);
    DelayedAnswer(SliceTps(c, chain), NetworkPerToken(c, req, chain));
    WorstLinkIs(req.links, chain);
    MinDecodeIs(c, chain);
    MinPrefillIs(c, chain);
  }

  lemma PodReports(c: Cost, req: Request, pod: seq<Node>)
    requires |pod| in {2, 3}
    ensures Reports(c, req, TensorCandidate(c, req, pod))
  {
    PodFirstToken(c, req, pod);
    RateIsScaled(MinDecode(c, pod), |pod|, c.tensorEfficiency);
    MinDecodeIs(c, pod);
  }

  lemma AloneReports(c: Cost, req: Request, n: Node)
    ensures Reports(c, req, SingleCandidate(c, req, n))
  {
    RatesAre(c, n);
    LinkIsEdge(req.links, req.client, n.id);
  }

  lemma DraftReports(c: Cost, req: Request, strong: Node, draft: Node)
    ensures Reports(c, req, SpeculativeCandidate(c, req, strong, draft))
  {
    RatesAre(c, strong);
    LinkIsEdge(req.links, req.client, strong.id);
  }

  lemma EveryReportIsTrue(c: Cost, req: Request, k: nat)
    requires k < |Candidates(c, req)|
    ensures Reports(c, req, Candidates(c, req)[k])
  {
    CandidateKind(c, req, k);
    var x := Candidates(c, req)[k];
    if PipelineCandidates(c, req) == [x] {
      SplitReports(c, req, TopTwo(Splitters(req)));
    } else if TensorCandidates(c, req) == [x] {
      TensorSound(c, req);
      PodReports(c, req, x.chain);
    } else if SpeculativeCandidates(c, req) == [x] {
      DraftReports(c, req, x.chain[0], x.chain[1]);
    } else {
      AloneReports(c, req, Replicas(req)[k]);
    }
  }

  // ---- the least cost is taken -------------------------------------------------------------------

  lemma ReplicaStands(c: Cost, req: Request, n: Node) returns (i: nat)
    requires Executable(req, Single)
    requires n in req.nodes && RunsModel(req, n) && Fits(req, n)
    ensures i < |Candidates(c, req)| && Candidates(c, req)[i] == SingleCandidate(c, req, n)
    ensures Candidates(c, req)[i].score == AloneTime(c, req, n)
  {
    ReplicaMembers(req, n);
    i := ReplicaIsCandidate(c, req, n);
    SingleTakes(c, req, n);
  }

  /** Whatever is selected costs no more than any single node that could serve the request. */
  lemma NoReplicaIsCheaper(c: Cost, req: Request, k: nat, n: Node)
    requires Executable(req, Single) && Selected(Candidates(c, req), k)
    requires n in req.nodes && RunsModel(req, n) && Fits(req, n)
    ensures Candidates(c, req)[k].score <= AloneTime(c, req, n)
  {
    var i := ReplicaStands(c, req, n);
  }

  /** For a caller of single nodes: the chosen node is the one with the least sum of queue, prompt, way and
      answer among all that run the model and fit it. */
  lemma ChosenReplicaIsCheapest(c: Cost, req: Request, k: nat)
    requires req.executable == {"single"} && Selected(Candidates(c, req), k)
    ensures |Candidates(c, req)[k].chain| == 1
    ensures var n := Candidates(c, req)[k].chain[0];
            && n in req.nodes && RunsModel(req, n) && Fits(req, n)
            && forall m :: m in req.nodes && RunsModel(req, m) && Fits(req, m) ==>
                 AloneTime(c, req, n) <= AloneTime(c, req, m)
  {
    SingleNames(req);
    SingleOnly(c, req);
    SingleAt(c, req, Replicas(req), k);
    var n := Replicas(req)[k];
    ReplicaMembers(req, n);
    SingleTakes(c, req, n);
    forall m | m in req.nodes && RunsModel(req, m) && Fits(req, m)
      ensures AloneTime(c, req, n) <= AloneTime(c, req, m)
    {
      NoReplicaIsCheaper(c, req, k, m);
    }
  }

  /** b is nowhere worse than a, and faster, nearer or less loaded. */
  ghost predicate Outdoes(c: Cost, req: Request, b: Node, a: Node) {
    && DecodeRate(c, a) <= DecodeRate(c, b) && PrefillRate(c, a) <= PrefillRate(c, b)
    && Away(req, b) <= Away(req, a) && 0 <= Queued(req, b) <= Queued(req, a)
    && (DecodeRate(c, a) < DecodeRate(c, b) || Away(req, b) < Away(req, a) || Queued(req, b) < Queued(req, a))
  }

  lemma QuotientShrinks(x: real, a: real, b: real)
    requires x > 0.0 && 0.0 < a < b
    ensures x / b < x / a
  {
    QuotientGrows(x, b, a);
    if x / b == x / a {
      assert x / b * b == x && x / a * a == x;
      EqualQuotients(x, a, b);
    }
  }

  lemma EqualQuotients(x: real, a: real, b: real)
    requires a != 0.0 && b != 0.0 && x / a == x / b && x != 0.0
    ensures a == b
  {
    var q := x / a;
    assert q * a == x && q * b == x;
    assert q * (a - b) == 0.0;
  }

  lemma MoreTurns(few: int, many: int, quick: real, slow: real)
    requires 0 <= few <= many && 0.0 < quick <= slow
    ensures few as real * quick <= many as real * slow
    ensures few < many ==> few as real * quick < many as real * slow
  {
    assert (many - few) as real * slow >= 0.0;
    assert few as real * (slow - quick) >= 0.0;
    if few < many {
      assert (many - few) as real * slow >= slow;
    }
  }

  lemma AnswerTimes(slow: real, fast: real)
    requires 0.0 < slow <= fast
    ensures 0.0 < 256.0 / fast <= 256.0 / slow && (slow < fast ==> 256.0 / fast < 256.0 / slow)
  {
    QuotientGrows(256.0, fast, slow);
    var q := 256.0 / fast;
    assert q * fast == 256.0;
    SignOfFactor(q, fast);
    if slow < fast {
      QuotientShrinks(256.0, slow, fast);
    }
  }

  lemma OutdoneCostsMore(c: Cost, req: Request, b: Node, a: Node)
    requires Outdoes(c, req, b, a)
    ensures AloneTime(c, req, b) < AloneTime(c, req, a)
  {
    AnswerTimes(DecodeRate(c, a), DecodeRate(c, b));
    QuotientGrows(req.promptTokens as real, PrefillRate(c, b), PrefillRate(c, a));
    MoreTurns(Queued(req, b), Queued(req, a), 256.0 / DecodeRate(c, b), 256.0 / DecodeRate(c, a));
  }

  /** A node that another one outdoes is never chosen, wherever the two stand in the registry. */
  lemma OutdoneNeverChosen(c: Cost, req: Request, k: nat, b: Node, a: Node)
    requires Executable(req, Single) && Selected(Candidates(c, req), k)
    requires b in req.nodes && RunsModel(req, b) && Fits(req, b) && Outdoes(c, req, b, a)
    ensures Candidates(c, req)[k].strategy != Single || Candidates(c, req)[k].chain != [a]
  {
    NoReplicaIsCheaper(c, req, k, b);
    EveryScoreIsTheCost(c, req, k);
    OutdoneCostsMore(c, req, b, a);
  }

  /** So of two nodes the faster, the nearer or the less loaded one is chosen. */
  lemma BetterOfTwoIsChosen(c: Cost, req: Request, k: nat, b: Node, a: Node)
    requires req.executable == {"single"} && Selected(Candidates(c, req), k)
    requires RunsModel(req, b) && Fits(req, b) && Outdoes(c, req, b, a)
    requires req.nodes == [a, b] || req.nodes == [b, a]
    ensures Candidates(c, req)[k].chain == [b]
  {
    ChosenReplicaIsCheapest(c, req, k);
    OutdoneCostsMore(c, req, b, a);
    OneOfTwo(req.nodes, a, b, Candidates(c, req)[k].chain);
  }

  lemma OneOfTwo(nodes: seq<Node>, a: Node, b: Node, chain: seq<Node>)
    requires nodes == [a, b] || nodes == [b, a]
    requires |chain| == 1 && chain[0] in nodes
    ensures a in nodes && b in nodes && (chain == [a] || chain == [b])
  {
  }
}
