/** The scheduler: it enumerates execution plans, predicts what each costs on the measured topology,
    and takes the cheapest. Times and rates are reals. */
module Scheduler {
  import opened Bytes
  import opened Receipts
  import opened Rounding
  import opened Topology

  datatype Strategy = Single | Pipeline | Tensor | Speculative

  function Name(s: Strategy): string {
    match s
    case Single => "single"
    case Pipeline => "pipeline"
    case Tensor => "tensor"
    case Speculative => "speculative"
  }

  /** A benchmarked rate; zero where there is none. */
  type Rate = r: real | r >= 0.0

  datatype Node = Node(
    id: NodeId, backends: set<string>, strategies: seq<string>, freeVram: int, totalVram: int, ramFree: int,
    decode: Rate, prefill: Rate)

  datatype CostModel = CostModel(
    rttMultiplierPerHop: real, activationBytesPerToken: real, pipelineEfficiency: real, reliabilityPenalty: real,
    defaultDecode: real, defaultPrefill: real, tensorEfficiency: real, speculativeSpeedup: real,
    speculativeMaxRtt: real, prefillEfficiency: real)

  /** Calibrations that never divide by zero. */
  type Cost = c: CostModel |
      c.pipelineEfficiency > 0.0 && c.defaultDecode > 0.0 && c.defaultPrefill > 0.0 && c.prefillEfficiency > 0.0
    witness CostModel(1.0, 12000.0, 0.65, 8.0, 20.0, 400.0, 0.85, 1.6, 50.0, 0.8)

  /** What is asked for, with the nodes in registry order. */
  datatype Request = Request(
    quantizations: seq<seq<nat>>, backends: seq<string>, nodes: seq<Node>, links: Links, client: NodeId,
    contextLength: int, promptTokens: nat, load: map<NodeId, int>, executable: set<string>)

  datatype Candidate = Candidate(strategy: Strategy, chain: seq<Node>, ttft: real, decodeTps: real, score: real)

  const REPRESENTATIVE_GEN := 256.0
  const HOPELESS := 1000000000.0
  const LAYERS: int := 64

  // ---- model fit ---------------------------------------------------------------------------------

  function Sum(sizes: seq<nat>): nat {
    if sizes == [] then 0 else sizes[0] + Sum(sizes[1..])
  }

  function QuantBytes(req: Request): nat {
    if req.quantizations == [] then 0 else Sum(req.quantizations[0])
  }

  function KvAllowance(modelBytes: nat, contextLength: int): int {
    var context := if contextLength < 1 then 1 else contextLength;
    (modelBytes as real * 0.20 * context as real / 32768.0).Floor
  }

  function Needed(req: Request): int {
    QuantBytes(req) + KvAllowance(QuantBytes(req), req.contextLength)
  }

  function UsableBytes(n: Node): int {
    var vram := if n.freeVram != 0 then n.freeVram else n.totalVram;
    if vram != 0 then vram else n.ramFree
  }

  predicate Fits(req: Request, n: Node) {
    UsableBytes(n) >= Needed(req)
  }

  predicate Can(n: Node, strategy: string) {
    strategy in if n.strategies == [] then ["single", "replica"] else n.strategies
  }

  predicate RunsModel(req: Request, n: Node) {
    exists i :: 0 <= i < |req.backends| && req.backends[i] in n.backends
  }

  predicate Executable(req: Request, s: Strategy) {
    req.executable == {} || Name(s) in req.executable
  }

  // ---- cost prediction ---------------------------------------------------------------------------

  function DecodeTps(c: Cost, n: Node): (r: real)
    ensures r > 0.0
  {
    if n.decode != 0.0 then n.decode else c.defaultDecode
  }

  function PrefillTps(c: Cost, n: Node): (r: real)
    ensures r > 0.0
  {
    if n.prefill != 0.0 then n.prefill else c.defaultPrefill
  }

  function Smaller(a: real, b: real): real {
    if b < a then b else a
  }

  function MinDecode(c: Cost, nodes: seq<Node>): (r: real)
    requires nodes != []
    ensures r > 0.0
  {
    if |nodes| == 1 then DecodeTps(c, nodes[0])
    else Smaller(MinDecode(c, nodes[..|nodes| - 1]), DecodeTps(c, nodes[|nodes| - 1]))
  }

  function MinPrefill(c: Cost, nodes: seq<Node>): (r: real)
    requires nodes != []
    ensures r > 0.0
  {
    if |nodes| == 1 then PrefillTps(c, nodes[0])
    else Smaller(MinPrefill(c, nodes[..|nodes| - 1]), PrefillTps(c, nodes[|nodes| - 1]))
  }

  function SumPrefill(c: Cost, nodes: seq<Node>): (r: real)
    ensures r >= 0.0 && (nodes != [] ==> r > 0.0)
  {
    if nodes == [] then 0.0 else SumPrefill(c, nodes[..|nodes| - 1]) + PrefillTps(c, nodes[|nodes| - 1])
  }

  /** The link of largest round trip along the chain, and none better than a loopback. */
  function WorstLink(links: Links, chain: seq<Node>): Link {
    if |chain| <= 1 then LinkMetrics(0.05, 1000000000.0, Loopback, 1.0)
    else
      var worst := WorstLink(links, chain[..|chain| - 1]);
      var last := LinkBetween(links, chain[|chain| - 2].id, chain[|chain| - 1].id);
      if last.rttMs > worst.rttMs then last else worst
  }

  function ClientRtt(req: Request, n: Node): real {
    LinkBetween(req.links, req.client, n.id).rttMs / 1000.0
  }

  /** Time to the first token, and decode rate. */
  type Prediction = (real, real)

  function PredictSingle(c: Cost, req: Request, n: Node): Prediction {
    (req.promptTokens as real / PrefillTps(c, n) + ClientRtt(req, n), DecodeTps(c, n))
  }

  /** What every token pays for crossing the chain's boundaries. */
  function NetworkPerToken(c: Cost, req: Request, chain: seq<Node>): real {
    var worst := WorstLink(req.links, chain);
    var hops := (|chain| - 1) as real;
    worst.rttMs / 1000.0 * c.rttMultiplierPerHop * hops
    + c.activationBytesPerToken * 8.0 / (worst.throughputMbps * 1000000.0) * hops
  }

  /** The slowest node's rate, less what a slice of the model loses between handoffs. */
  function SliceTps(c: Cost, chain: seq<Node>): (r: real)
    requires chain != []
    ensures r > 0.0
  {
    MinDecode(c, chain) * c.pipelineEfficiency
  }

  function PredictPipeline(c: Cost, req: Request, chain: seq<Node>): Prediction
    requires chain != []
  {
    var network := NetworkPerToken(c, req, chain);
    (req.promptTokens as real / MinPrefill(c, chain) + network + ClientRtt(req, chain[0]),
     Delayed(SliceTps(c, chain), network))
  }

  /** The rate left when every token also waits for the network. */
  function Delayed(rate: real, network: real): real
    requires rate > 0.0
  {
    var perToken := 1.0 / rate + network;
    if perToken > 0.0 then 1.0 / perToken else 0.0
  }

  function PredictTensor(c: Cost, req: Request, pod: seq<Node>): Prediction
    requires pod != []
  {
    (Shared(req.promptTokens as real, SumPrefill(c, pod), c.prefillEfficiency) + ClientRtt(req, pod[0]),
     Scaled(MinDecode(c, pod), |pod| - 1, c.tensorEfficiency))
  }

  /** The prompt, shared out among nodes of these rates together. */
  function Shared(tokens: real, together: real, efficiency: real): real
    requires together > 0.0 && efficiency > 0.0
  {
    tokens / (together * efficiency)
  }

  /** The rate of one unit and what each added one contributes. */
  function Scaled(base: real, added: int, efficiency: real): real {
    base * (1.0 + added as real * efficiency)
  }

  function PredictSpeculative(c: Cost, req: Request, strong: Node): Prediction {
    (req.promptTokens as real / PrefillTps(c, strong) + ClientRtt(req, strong),
     DecodeTps(c, strong) * c.speculativeSpeedup)
  }

  function Load(req: Request, n: Node): int {
    if n.id in req.load then req.load[n.id] else 0
  }

  /** The time that a representative answer takes. */
  function Generation(decodeTps: real): real {
    if decodeTps > 0.0 then REPRESENTATIVE_GEN / decodeTps else HOPELESS
  }

  function QueueWait(queued: int, decodeTps: real): real {
    if decodeTps > 0.0 then queued as real * Generation(decodeTps) else 0.0
  }

  /** The price of a link that drops. */
  function Penalty(c: Cost, links: Links, chain: seq<Node>): real {
    (1.0 - WorstLink(links, chain).stability) * c.reliabilityPenalty
  }

  /** The time a user waits, and the penalty; lower is better. */
  function Score(c: Cost, req: Request, p: Prediction, chain: seq<Node>, wait: real): real {
    wait + p.0 + Generation(p.1) + Penalty(c, req.links, chain)
  }

  // ---- candidates --------------------------------------------------------------------------------

  function Keep(nodes: seq<Node>, wanted: Node -> bool): seq<Node> {
    if nodes == [] then []
    else Keep(nodes[..|nodes| - 1], wanted) + if wanted(nodes[|nodes| - 1]) then [nodes[|nodes| - 1]] else []
  }

  function Compatible(req: Request): seq<Node> {
    Keep(req.nodes, n => RunsModel(req, n))
  }

  function Replicas(req: Request): seq<Node> {
    Keep(Compatible(req), n => Fits(req, n))
  }

  function SingleCandidate(c: Cost, req: Request, n: Node): Candidate {
    var p := PredictSingle(c, req, n);
    Candidate(Single, [n], p.0, p.1, Score(c, req, p, [n], QueueWait(Load(req, n), p.1)))
  }

  function SingleCandidates(c: Cost, req: Request, nodes: seq<Node>): (r: seq<Candidate>)
    ensures |r| == |nodes|
  {
    if nodes == [] then []
    else SingleCandidates(c, req, nodes[..|nodes| - 1]) + [SingleCandidate(c, req, nodes[|nodes| - 1])]
  }

  /** The earliest node that no other one beats. */
  function Largest(nodes: seq<Node>, key: Node -> real): (k: nat)
    requires nodes != []
    ensures k < |nodes|
    ensures forall j :: 0 <= j < |nodes| ==> key(nodes[j]) <= key(nodes[k])
    ensures forall j :: 0 <= j < k ==> key(nodes[j]) < key(nodes[k])
  {
    if |nodes| == 1 then 0
    else
      var k := Largest(nodes[..|nodes| - 1], key);
      if key(nodes[|nodes| - 1]) > key(nodes[k]) then |nodes| - 1 else k
  }

  function FreeVram(n: Node): real {
    n.freeVram as real
  }

  function Without(nodes: seq<Node>, i: nat): (r: seq<Node>)
    requires i < |nodes|
    ensures |r| == |nodes| - 1
    ensures forall j :: 0 <= j < i ==> r[j] == nodes[j]
    ensures forall j :: i <= j < |r| ==> r[j] == nodes[j + 1]
  {
    nodes[..i] + nodes[i + 1..]
  }

  /** The two nodes of most free VRAM, in that order, earlier ones first among equals. */
  function TopTwo(nodes: seq<Node>): (r: seq<Node>)
    requires |nodes| >= 2
    ensures |r| == 2
  {
    var i := Largest(nodes, FreeVram);
    var others := Without(nodes, i);
    [nodes[i], others[Largest(others, FreeVram)]]
  }

  function Splitters(req: Request): seq<Node> {
    Keep(Compatible(req), n => Can(n, "pipeline"))
  }

  function PipelineCandidate(c: Cost, req: Request, chain: seq<Node>): Candidate
    requires chain != []
  {
    var p := PredictPipeline(c, req, chain);
    Candidate(Pipeline, chain, p.0, p.1, Score(c, req, p, chain, 0.0))
  }

  function PipelineCandidates(c: Cost, req: Request): (r: seq<Candidate>)
    ensures |r| <= 1
  {
    var splitters := Splitters(req);
    if |splitters| < 2 || !Executable(req, Pipeline) then [] else
    var chain := TopTwo(splitters);
    if UsableBytes(chain[0]) + UsableBytes(chain[1]) < Needed(req) then [] else
    [PipelineCandidate(c, req, chain)]
  }

  predicate MutuallyLanClass(links: Links, pod: seq<Node>) {
    forall i, j :: 0 <= i < j < |pod| ==> IsLanClass(LinkBetween(links, pod[i].id, pod[j].id))
  }

  function MaxLoad(req: Request, pod: seq<Node>): int
    requires pod != []
  {
    if |pod| == 1 then Load(req, pod[0])
    else
      var most := MaxLoad(req, pod[..|pod| - 1]);
      if Load(req, pod[|pod| - 1]) > most then Load(req, pod[|pod| - 1]) else most
  }

  function Pod(req: Request, size: nat): seq<Node> {
    var capable := Keep(Replicas(req), n => Can(n, "tensor"));
    if |capable| < size then capable else capable[..size]
  }

  predicate PodWorks(req: Request, size: nat) {
    |Pod(req, size)| == size && MutuallyLanClass(req.links, Pod(req, size)) && Executable(req, Tensor)
  }

  function TensorCandidate(c: Cost, req: Request, pod: seq<Node>): Candidate
    requires pod != []
  {
    var p := PredictTensor(c, req, pod);
    Candidate(Tensor, pod, p.0, p.1, Score(c, req, p, pod, QueueWait(MaxLoad(req, pod), p.1)))
  }

  /** Three nodes if they make a pod, else two. */
  function TensorCandidates(c: Cost, req: Request): (r: seq<Candidate>)
    ensures |r| <= 1
  {
    if PodWorks(req, 3) then [TensorCandidate(c, req, Pod(req, 3))]
    else if PodWorks(req, 2) then [TensorCandidate(c, req, Pod(req, 2))]
    else []
  }

  function Drafts(c: Cost, req: Request, strong: Node): seq<Node> {
    Keep(Compatible(req), (n: Node) => n.id != strong.id && (Can(n, "speculative") || Can(n, "draft"))
                               && LinkBetween(req.links, strong.id, n.id).rttMs <= c.speculativeMaxRtt)
  }

  function Strongest(c: Cost, nodes: seq<Node>): (n: Node)
    requires nodes != []
    ensures n in nodes
  {
    nodes[Largest(nodes, n => DecodeTps(c, n))]
  }

  function SpeculativeCandidate(c: Cost, req: Request, strong: Node, draft: Node): Candidate {
    var p := PredictSpeculative(c, req, strong);
    Candidate(Speculative, [strong, draft], p.0, p.1,
              Score(c, req, p, [strong], QueueWait(Load(req, strong), p.1)))
  }

  function SpeculativeCandidates(c: Cost, req: Request): (r: seq<Candidate>)
    ensures |r| <= 1
  {
    if Replicas(req) == [] || !Executable(req, Speculative) then [] else
    var strong := Strongest(c, Replicas(req));
    var drafts := Drafts(c, req, strong);
    if drafts == [] then [] else [SpeculativeCandidate(c, req, strong, drafts[0])]
  }

  function Candidates(c: Cost, req: Request): seq<Candidate> {
    (if Executable(req, Single) then SingleCandidates(c, req, Replicas(req)) else [])
    + PipelineCandidates(c, req) + TensorCandidates(c, req) + SpeculativeCandidates(c, req)
  }

  // ---- plan --------------------------------------------------------------------------------------

  datatype Assignment = Assignment(node: NodeId, role: Strategy, layers: Option<(int, int)>, backend: string)

  datatype Plan = Plan(
    strategy: Strategy, chain: seq<Node>, assignments: seq<Assignment>, ttft: real, decodeTps: real)

  /** Where shard i of n begins and ends. */
  function Slice(i: int, n: int): (int, int)
    requires 0 <= i < n
  {
    (i * (LAYERS / n), if i == n - 1 then LAYERS else (i + 1) * (LAYERS / n))
  }

  function Backend(req: Request): string {
    if req.backends == [] then "" else req.backends[0]
  }

  /** The part that node i of a chain plays; a pipeline's shards name no backend. */
  function PartOf(strategy: Strategy, chain: seq<Node>, backend: string, i: int): Assignment
    requires 0 <= i < |chain|
  {
    Assignment(chain[i].id,
               if strategy == Speculative && i == 0 then Single else strategy,
               if strategy == Pipeline then Some(Slice(i, |chain|)) else None,
               if strategy == Pipeline then "" else backend)
  }

  method Assign(best: Candidate, backend: string) returns (out: seq<Assignment>)
    requires best.chain != [] && (best.strategy == Speculative ==> |best.chain| == 2)
             && (best.strategy == Single ==> |best.chain| == 1)
    ensures |out| == |best.chain|
    ensures forall i :: 0 <= i < |out| ==> out[i] == PartOf(best.strategy, best.chain, backend, i)
  {
    match best.strategy {
      case Single => out := [Assignment(best.chain[0].id, Single, None, backend)];
      case Tensor =>
        out := seq(|best.chain|, i requires 0 <= i < |best.chain| =>
          Assignment(best.chain[i].id, Tensor, None, backend));
      case Speculative =>
        out := [Assignment(best.chain[0].id, Single, None, backend),
                Assignment(best.chain[1].id, Speculative, None, backend)];
      case Pipeline =>
        var n := |best.chain|;
        var per := LAYERS / n;
        out := [];
        for i := 0 to n
          invariant |out| == i
          invariant forall k :: 0 <= k < i ==> out[k] == PartOf(Pipeline, best.chain, backend, k)
        {
          out := out + [Assignment(best.chain[i].id, Pipeline,
                                   Some((i * per, if i == n - 1 then LAYERS else (i + 1) * per)), "")];
        }
    }
  }

  /** The earliest candidate of smallest score: the first one after a stable sort. */
  method Cheapest(candidates: seq<Candidate>) returns (k: nat)
    requires candidates != []
    ensures k < |candidates|
    ensures forall j :: 0 <= j < |candidates| ==> candidates[k].score <= candidates[j].score
    ensures forall j :: 0 <= j < k ==> candidates[k].score < candidates[j].score
  {
    k := 0;
    for i := 1 to |candidates|
      invariant k < i
      invariant forall j :: 0 <= j < i ==> candidates[k].score <= candidates[j].score
      invariant forall j :: 0 <= j < k ==> candidates[k].score < candidates[j].score
    {
      if candidates[i].score < candidates[k].score {
        k := i;
      }
    }
  }

  /** Candidate k is the one that plan takes. */
  ghost predicate Selected(candidates: seq<Candidate>, k: nat) {
    && k < |candidates|
    && (forall j :: 0 <= j < |candidates| ==> candidates[k].score <= candidates[j].score)
    && (forall j :: 0 <= j < k ==> candidates[k].score < candidates[j].score)
  }

  method Enumerate(c: Cost, req: Request) returns (candidates: seq<Candidate>)
    ensures candidates == Candidates(c, req)
  {
    var replicas := Replicas(req);
    candidates := [];
    if Executable(req, Single) {
      for i := 0 to |replicas|
        invariant candidates == SingleCandidates(c, req, replicas[..i])
      {
        assert replicas[..i + 1][..i] == replicas[..i];
        candidates := candidates + [SingleCandidate(c, req, replicas[i])];
      }
      assert replicas[..|replicas|] == replicas;
    }
    candidates := candidates + PipelineCandidates(c, req);
    candidates := candidates + TensorCandidates(c, req);
    candidates := candidates + SpeculativeCandidates(c, req);
  }

  /** plan: None where the source raises. */
  method MakePlan(c: Cost, req: Request) returns (r: Option<Plan>, ghost k: nat)
    ensures r.None? <==> Candidates(c, req) == []
    ensures r.Some? ==>
              && Selected(Candidates(c, req), k)
              && r.value.strategy == Candidates(c, req)[k].strategy
              && r.value.chain == Candidates(c, req)[k].chain
              && r.value.ttft == Round(Candidates(c, req)[k].ttft, 1000.0)
              && r.value.decodeTps == Round(Candidates(c, req)[k].decodeTps, 100.0)
              && |r.value.assignments| == |r.value.chain|
              && (forall i :: 0 <= i < |r.value.chain| ==>
                   r.value.assignments[i] == PartOf(r.value.strategy, r.value.chain, Backend(req), i))
              && (forall i :: 0 <= i < |r.value.chain| ==>
                   var part := r.value.assignments[i];
                   && part.node == r.value.chain[i].id
                   && part.role == (if r.value.strategy == Speculative && i == 0 then Single else r.value.strategy)
                   && (part.layers.Some? <==> r.value.strategy == Pipeline)
                   && part.backend == (if r.value.strategy == Pipeline || req.backends == [] then ""
                                       else req.backends[0]))
  {
    k := 0;
    var compatible := Compatible(req);
    if compatible == [] {
      NothingCompatible(c, req);
      return None, k;
    }
    var candidates := Enumerate(c, req);
    if candidates == [] {
      return None, k;
    }
    var best := Cheapest(candidates);
    k := best;
    CandidateShape(c, req, k);
    var chosen := candidates[best];
    var assignments := Assign(chosen, Backend(req));
    r := Some(Plan(chosen.strategy, chosen.chain, assignments,
                   Round(chosen.ttft, 1000.0), Round(chosen.decodeTps, 100.0)));
  }

  lemma NothingCompatible(c: Cost, req: Request)
    requires Compatible(req) == []
    ensures Candidates(c, req) == []
  {
  }

  lemma {:induction false} SingleAt(c: Cost, req: Request, nodes: seq<Node>, i: nat)
    requires i < |nodes|
    ensures SingleCandidates(c, req, nodes)[i] == SingleCandidate(c, req, nodes[i])
  {
    if i < |nodes| - 1 {
      SingleAt(c, req, nodes[..|nodes| - 1], i);
    }
  }

  lemma AtMostOneEach(a: seq<Candidate>, b: seq<Candidate>, c: seq<Candidate>, d: seq<Candidate>, k: nat)
    requires |b| <= 1 && |c| <= 1 && |d| <= 1 && k < |a + b + c + d|
    ensures var x := (a + b + c + d)[k];
            if k < |a| then x == a[k] else b == [x] || c == [x] || d == [x]
  {
  }

  /** Which candidate stands where. */
  lemma CandidateKind(c: Cost, req: Request, k: nat)
    requires k < |Candidates(c, req)|
    ensures var x := Candidates(c, req)[k];
            || (Executable(req, Single) && k < |Replicas(req)| && x == SingleCandidate(c, req, Replicas(req)[k]))
            || PipelineCandidates(c, req) == [x]
            || TensorCandidates(c, req) == [x]
            || SpeculativeCandidates(c, req) == [x]
  {
    var singles := if Executable(req, Single) then SingleCandidates(c, req, Replicas(req)) else [];
    AtMostOneEach(singles, PipelineCandidates(c, req), TensorCandidates(c, req), SpeculativeCandidates(c, req), k);
    if k < |singles| {
      SingleAt(c, req, Replicas(req), k);
    }
  }

  lemma CandidateShape(c: Cost, req: Request, k: nat)
    requires k < |Candidates(c, req)|
    ensures var x := Candidates(c, req)[k];
            && x.chain != []
            && (x.strategy == Single ==> |x.chain| == 1)
            && (x.strategy == Speculative ==> |x.chain| == 2)
  {
    CandidateKind(c, req, k);
  }

  // ---- what the memory terms are -----------------------------------------------------------------

  lemma {:induction false} SumConcat(a: seq<nat>, b: seq<nat>)
    ensures Sum(a + b) == Sum(a) + Sum(b)
    ensures forall x: nat :: Sum([x]) == x
  {
    if a == [] {
      assert a + b == b;
    } else {
      SumConcat(a[1..], b);
      assert (a + b)[1..] == a[1..] + b;
    }
    forall x: nat
      ensures Sum([x]) == x
    {
      assert [x][1..] == [];
    }
  }

  /** The allowance is a fifth of the weights for each 32768 tokens of context, at least one token's, in whole
      bytes. */
  lemma AllowanceIsAFifth(modelBytes: nat, contextLength: int)
    ensures var k, context := KvAllowance(modelBytes, contextLength), if contextLength >= 1 then contextLength else 1;
            0 <= k && 163840 * k <= modelBytes * context < 163840 * (k + 1)
  {
    var context := if contextLength >= 1 then contextLength else 1;
    var product := modelBytes * context;
    assert product as real == modelBytes as real * context as real;
    assert modelBytes as real * 0.20 * context as real / 32768.0 == product as real / 163840.0;
    assert 0 <= product;
  }

  /** What a node can load: its free VRAM, or all of it where none is free, or its RAM where it has none. */
  lemma UsableIs(n: Node)
    ensures n.freeVram != 0 ==> UsableBytes(n) == n.freeVram
    ensures n.freeVram == 0 && n.totalVram != 0 ==> UsableBytes(n) == n.totalVram
    ensures n.freeVram == 0 && n.totalVram == 0 ==> UsableBytes(n) == n.ramFree
  {
  }

  /** Which model fits which node: the first quantization and its allowance. */
  lemma FitsIff(req: Request, n: Node)
    ensures Fits(req, n) <==>
              UsableBytes(n) >= QuantBytes(req) + KvAllowance(QuantBytes(req), req.contextLength)
    ensures req.quantizations != [] ==> QuantBytes(req) == Sum(req.quantizations[0])
    ensures req.quantizations == [] ==> QuantBytes(req) == 0
  {
  }

  /** A caller that names no strategy can execute all of them. */
  lemma UnrestrictedExecutesAll(req: Request, s: Strategy)
    requires req.executable == {}
    ensures Executable(req, s)
  {
  }

  /** What counts as one LAN: five milliseconds, 500 Mbit/s, and no relay or hole in a NAT. An unmeasured link
      does not, and a host and itself do. */
  lemma LanClassIff(m: LinkMetrics)
    ensures IsLanClass(m) <==>
              && m.rttMs <= 5.0 && m.throughputMbps >= 500.0
              && m.pathType != Holepunched && m.pathType != Relay
    ensures !IsLanClass(Unmeasured()) && IsLanClass(SameHost())
  {
  }
}
