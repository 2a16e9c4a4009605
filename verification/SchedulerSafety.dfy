/** What the scheduler's choices guarantee. */
module SchedulerSafety {
  import opened Topology
  import opened Scheduler

  lemma {:induction false} KeepMembers(nodes: seq<Node>, wanted: Node -> bool, n: Node)
    ensures n in Keep(nodes, wanted) <==> n in nodes && wanted(n)
  {
    if nodes != [] {
      var shorter := nodes[..|nodes| - 1];
      KeepMembers(shorter, wanted, n);
      assert nodes == shorter + [nodes[|nodes| - 1]];
    }
  }

  lemma CompatibleMembers(req: Request, n: Node)
    ensures n in Compatible(req) <==> n in req.nodes && RunsModel(req, n)
  {
    KeepMembers(req.nodes, n => RunsModel(req, n), n);
  }

  lemma ReplicaMembers(req: Request, n: Node)
    ensures n in Replicas(req) <==> n in req.nodes && RunsModel(req, n) && Fits(req, n)
  {
    KeepMembers(Compatible(req), n => Fits(req, n), n);
    CompatibleMembers(req, n);
  }

  // ---- every candidate can be carried out --------------------------------------------------------

  /** The memory that a plan of each strategy needs is there. A draft's memory is not looked at. */
  ghost predicate HoldsModel(req: Request, x: Candidate) {
    match x.strategy
    case Single => |x.chain| == 1 && Fits(req, x.chain[0])
    case Pipeline => |x.chain| == 2 && UsableBytes(x.chain[0]) + UsableBytes(x.chain[1]) >= Needed(req)
    case Tensor => |x.chain| in {2, 3} && forall n :: n in x.chain ==> Fits(req, n)
    case Speculative => |x.chain| == 2 && Fits(req, x.chain[0]) && x.chain[1].id != x.chain[0].id
  }

  /** The link between two nodes is within five milliseconds, carries 500 Mbit/s, and is no relay and no hole
      in a NAT. */
  predicate Near(m: LinkMetrics) {
    m.rttMs <= 5.0 && m.throughputMbps >= 500.0 && m.pathType != Holepunched && m.pathType != Relay
  }

  /** Every pair of the nodes is near each other. */
  ghost predicate AllNear(links: Links, nodes: seq<Node>) {
    forall i, j :: 0 <= i < j < |nodes| ==> Near(LinkBetween(links, nodes[i].id, nodes[j].id))
  }

  lemma MutuallyIsAllNear(links: Links, nodes: seq<Node>)
    ensures MutuallyLanClass(links, nodes) <==> AllNear(links, nodes)
  {
  }

  /** Every node of the plan has advertised the part it plays, near enough to play it. */
  ghost predicate PlaysPart(c: Cost, req: Request, x: Candidate) {
    match x.strategy
    case Single => true
    case Pipeline => forall n :: n in x.chain ==> Can(n, "pipeline")
    case Tensor => AllNear(req.links, x.chain) && forall n :: n in x.chain ==> Can(n, "tensor")
    case Speculative =>
      && |x.chain| == 2
      && (Can(x.chain[1], "speculative") || Can(x.chain[1], "draft"))
      && LinkBetween(req.links, x.chain[0].id, x.chain[1].id).rttMs <= c.speculativeMaxRtt
      && forall n :: n in Replicas(req) ==> DecodeTps(c, n) <= DecodeTps(c, x.chain[0])
  }

  lemma PipelineSound(c: Cost, req: Request)
    requires PipelineCandidates(c, req) != []
    ensures var x := PipelineCandidates(c, req)[0];
            && x.strategy == Pipeline && Executable(req, Pipeline) && HoldsModel(req, x) && PlaysPart(c, req, x)
            && forall n :: n in x.chain ==> n in Compatible(req)
  {
    var chain := TopTwo(Splitters(req));
    TopTwoMembers(Splitters(req));
    SplitterMembers(req, chain[0]);
    SplitterMembers(req, chain[1]);
  }

  lemma SplitterMembers(req: Request, n: Node)
    ensures n in Splitters(req) <==> n in Compatible(req) && Can(n, "pipeline")
  {
    KeepMembers(Compatible(req), n => Can(n, "pipeline"), n);
  }

  lemma TopTwoMembers(nodes: seq<Node>)
    requires |nodes| >= 2
    ensures forall n :: n in TopTwo(nodes) ==> n in nodes
  {
    var others := Without(nodes, Largest(nodes, FreeVram));
    assert forall n :: n in others ==> n in nodes;
  }

  lemma PodSound(req: Request, size: nat)
    ensures forall n :: n in Pod(req, size) ==> n in Compatible(req) && Fits(req, n) && Can(n, "tensor")
  {
    forall n | n in Pod(req, size) ensures n in Compatible(req) && Fits(req, n) && Can(n, "tensor") {
      KeepMembers(Replicas(req), n => Can(n, "tensor"), n);
      ReplicaMembers(req, n);
      CompatibleMembers(req, n);
    }
  }

  lemma TensorSound(c: Cost, req: Request)
    requires TensorCandidates(c, req) != []
    ensures var x := TensorCandidates(c, req)[0];
            && x.strategy == Tensor && Executable(req, Tensor) && HoldsModel(req, x) && PlaysPart(c, req, x)
            && forall n :: n in x.chain ==> n in Compatible(req)
  {
    PodSound(req, 3);
    PodSound(req, 2);
    MutuallyIsAllNear(req.links, Pod(req, 3));
    MutuallyIsAllNear(req.links, Pod(req, 2));
  }

  /** Three replicas that can take part make the pod where the first three are near each other, else two where
      the first two are. */
  lemma PodIs(c: Cost, req: Request, capable: seq<Node>)
    requires capable == Keep(Replicas(req), n => Can(n, "tensor")) && Executable(req, Tensor)
    ensures |capable| >= 3 && AllNear(req.links, capable[..3]) ==>
              |TensorCandidates(c, req)| == 1 && TensorCandidates(c, req)[0].chain == capable[..3]
    ensures !(|capable| >= 3 && AllNear(req.links, capable[..3]))
            && |capable| >= 2 && AllNear(req.links, capable[..2]) ==>
              |TensorCandidates(c, req)| == 1 && TensorCandidates(c, req)[0].chain == capable[..2]
  {
    MutuallyIsAllNear(req.links, Pod(req, 3));
    MutuallyIsAllNear(req.links, Pod(req, 2));
  }

  lemma SpeculativeSound(c: Cost, req: Request)
    requires SpeculativeCandidates(c, req) != []
    ensures var x := SpeculativeCandidates(c, req)[0];
            && x.strategy == Speculative && Executable(req, Speculative) && HoldsModel(req, x) && PlaysPart(c, req, x)
            && forall n :: n in x.chain ==> n in Compatible(req)
  {
    var strong := Strongest(c, Replicas(req));
    var drafts := Drafts(c, req, strong);
    ReplicaMembers(req, strong);
    CompatibleMembers(req, strong);
    var wanted := (n: Node) => n.id != strong.id && (Can(n, "speculative") || Can(n, "draft"))
                               && LinkBetween(req.links, strong.id, n.id).rttMs <= c.speculativeMaxRtt;
    assert drafts == Keep(Compatible(req), wanted);
    KeepMembers(Compatible(req), wanted, drafts[0]);
    StrongestIsFastest(c, Replicas(req));
  }

  lemma StrongestIsFastest(c: Cost, nodes: seq<Node>)
    requires nodes != []
    ensures forall n :: n in nodes ==> DecodeTps(c, n) <= DecodeTps(c, Strongest(c, nodes))
  {
    var rate := (n: Node) => DecodeTps(c, n);
    var k := Largest(nodes, rate);
    assert forall j :: 0 <= j < |nodes| ==> rate(nodes[j]) <= rate(nodes[k]);
  }

  /** Every plan uses a strategy the caller can execute, nodes that run one of the model's backends and
      have advertised their part, and memory that covers the weights and the same KV allowance. */
  lemma EveryCandidateSound(c: Cost, req: Request, k: nat)
    requires k < |Candidates(c, req)|
    ensures var x := Candidates(c, req)[k];
            && Executable(req, x.strategy) && HoldsModel(req, x) && PlaysPart(c, req, x)
            && forall n :: n in x.chain ==> n in req.nodes && RunsModel(req, n)
  {
    CandidateKind(c, req, k);
    var x := Candidates(c, req)[k];
    if PipelineCandidates(c, req) == [x] {
      PipelineSound(c, req);
    } else if TensorCandidates(c, req) == [x] {
      TensorSound(c, req);
    } else if SpeculativeCandidates(c, req) == [x] {
      SpeculativeSound(c, req);
    } else {
      ReplicaMembers(req, Replicas(req)[k]);
      CompatibleMembers(req, Replicas(req)[k]);
    }
    forall n | n in x.chain ensures n in req.nodes && RunsModel(req, n) {
      assert n in Compatible(req);
      CompatibleMembers(req, n);
    }
  }

  // ---- when there is a plan ----------------------------------------------------------------------

  lemma SingleOnly(c: Cost, req: Request)
    requires req.executable == {"single"}
    ensures Candidates(c, req) == SingleCandidates(c, req, Replicas(req))
  {
    assert Name(Single) == "single";
    assert !Executable(req, Pipeline) by { assert "pipeline"[0] != "single"[0]; }
    assert !Executable(req, Tensor) by { assert "tensor"[0] != "single"[0]; }
    assert !Executable(req, Speculative) by { assert "speculative"[1] != "single"[1]; }
  }

  /** For a caller that runs single nodes only, as the gateway does: a plan exists exactly when some
      node runs the model and fits it. */
  lemma SingleFeasibleIff(c: Cost, req: Request)
    requires req.executable == {"single"}
    ensures Candidates(c, req) != [] <==> exists n :: n in req.nodes && RunsModel(req, n) && Fits(req, n)
  {
    SingleOnly(c, req);
    if Replicas(req) != [] {
      ReplicaMembers(req, Replicas(req)[0]);
    }
    if n :| n in req.nodes && RunsModel(req, n) && Fits(req, n) {
      ReplicaMembers(req, n);
    }
  }

  /** What two of the nodes can hold together. */
  function Joint(nodes: seq<Node>, i: int, j: int): int
    requires 0 <= i < |nodes| && 0 <= j < |nodes|
  {
    UsableBytes(nodes[i]) + UsableBytes(nodes[j])
  }

  ghost predicate SomePairHolds(nodes: seq<Node>, needed: int) {
    exists i, j :: 0 <= i < j < |nodes| && Joint(nodes, i, j) >= needed
  }

  /** The guard of the split: the two nodes of most free VRAM hold it. */
  predicate TopTwoHold(nodes: seq<Node>, needed: int) {
    |nodes| >= 2 && UsableBytes(TopTwo(nodes)[0]) + UsableBytes(TopTwo(nodes)[1]) >= needed
  }

  /** A split is offered exactly when the two splitters of most free VRAM hold the model. */
  lemma SplitOfferedIff(c: Cost, req: Request)
    requires Executable(req, Pipeline)
    ensures PipelineCandidates(c, req) != [] <==> TopTwoHold(Splitters(req), Needed(req))
  {
  }

  /** So a split that some two of them could hold is missed exactly when those two cannot. */
  lemma SplitMissedIff(c: Cost, req: Request)
    requires Executable(req, Pipeline)
    requires SomePairHolds(Splitters(req), Needed(req))
    ensures PipelineCandidates(c, req) == [] <==>
              UsableBytes(TopTwo(Splitters(req))[0]) + UsableBytes(TopTwo(Splitters(req))[1]) < Needed(req)
  {
  }

  /** Where TopTwo finds its second node. */
  function SecondIndex(nodes: seq<Node>): (j: nat)
    requires |nodes| >= 2
    ensures j < |nodes| && j != Largest(nodes, FreeVram) && TopTwo(nodes)[1] == nodes[j]
  {
    var i := Largest(nodes, FreeVram);
    var m := Largest(Without(nodes, i), FreeVram);
    if m < i then m else m + 1
  }

  /** No node outside the two of most free VRAM can use more memory than either of them. */
  ghost predicate TopTwoDominate(nodes: seq<Node>)
    requires |nodes| >= 2
  {
    var a, b := Largest(nodes, FreeVram), SecondIndex(nodes);
    forall k :: 0 <= k < |nodes| && k != a && k != b ==>
      UsableBytes(nodes[k]) <= UsableBytes(nodes[a]) && UsableBytes(nodes[k]) <= UsableBytes(nodes[b])
  }

  ghost predicate TopTwoHoldMost(nodes: seq<Node>)
    requires |nodes| >= 2
  {
    forall i, j :: 0 <= i < j < |nodes| ==>
      Joint(nodes, i, j) <= UsableBytes(TopTwo(nodes)[0]) + UsableBytes(TopTwo(nodes)[1])
  }

  lemma JointAtMost(nodes: seq<Node>, k: nat, l: nat)
    requires |nodes| >= 2 && TopTwoHoldMost(nodes) && k < |nodes| && l < |nodes| && k != l
    ensures UsableBytes(nodes[k]) + UsableBytes(nodes[l])
         <= UsableBytes(TopTwo(nodes)[0]) + UsableBytes(TopTwo(nodes)[1])
  {
    if k < l {
      assert Joint(nodes, k, l) == UsableBytes(nodes[k]) + UsableBytes(nodes[l]);
    } else {
      assert Joint(nodes, l, k) == UsableBytes(nodes[k]) + UsableBytes(nodes[l]);
    }
  }

  lemma MostDominates(nodes: seq<Node>, k: nat)
    requires |nodes| >= 2 && TopTwoHoldMost(nodes) && k < |nodes|
    requires k != Largest(nodes, FreeVram) && k != SecondIndex(nodes)
    ensures UsableBytes(nodes[k]) <= UsableBytes(TopTwo(nodes)[0])
    ensures UsableBytes(nodes[k]) <= UsableBytes(TopTwo(nodes)[1])
  {
    JointAtMost(nodes, k, Largest(nodes, FreeVram));
    JointAtMost(nodes, k, SecondIndex(nodes));
  }

  lemma DominatedPair(nodes: seq<Node>, i: nat, j: nat)
    requires |nodes| >= 2 && TopTwoDominate(nodes) && i < j < |nodes|
    ensures Joint(nodes, i, j) <= UsableBytes(TopTwo(nodes)[0]) + UsableBytes(TopTwo(nodes)[1])
  {
    var a, b := Largest(nodes, FreeVram), SecondIndex(nodes);
    assert TopTwo(nodes)[0] == nodes[a] && TopTwo(nodes)[1] == nodes[b];
  }

  lemma DominatingHoldMost(nodes: seq<Node>)
    requires |nodes| >= 2
    ensures TopTwoHoldMost(nodes) <==> TopTwoDominate(nodes)
  {
    var a, b := Largest(nodes, FreeVram), SecondIndex(nodes);
    if TopTwoHoldMost(nodes) {
      forall k | 0 <= k < |nodes| && k != a && k != b
        ensures UsableBytes(nodes[k]) <= UsableBytes(nodes[a]) && UsableBytes(nodes[k]) <= UsableBytes(nodes[b])
      {
        MostDominates(nodes, k);
      }
    }
    if TopTwoDominate(nodes) {
      forall i, j | 0 <= i < j < |nodes|
        ensures Joint(nodes, i, j) <= UsableBytes(TopTwo(nodes)[0]) + UsableBytes(TopTwo(nodes)[1])
      {
        DominatedPair(nodes, i, j);
      }
    }
  }

  /** For a list of splitters: whatever a model needs, a split is offered as soon as some two nodes can
      hold it, exactly when no node outside the two of most free VRAM can use more memory than either
      of them. */
  lemma NoSplitMissedIff(nodes: seq<Node>)
    requires |nodes| >= 2
    ensures (forall needed :: SomePairHolds(nodes, needed) ==> TopTwoHold(nodes, needed)) <==> TopTwoHoldMost(nodes)
    ensures TopTwoHoldMost(nodes) <==> TopTwoDominate(nodes)
  {
    DominatingHoldMost(nodes);
    if forall needed :: SomePairHolds(nodes, needed) ==> TopTwoHold(nodes, needed) {
      forall i, j | 0 <= i < j < |nodes|
        ensures Joint(nodes, i, j) <= UsableBytes(TopTwo(nodes)[0]) + UsableBytes(TopTwo(nodes)[1])
      {
        assert SomePairHolds(nodes, Joint(nodes, i, j));
      }
    }
  }

  /** There, a request is offered a split exactly when some two splitters can hold the model. */
  lemma SplitOfferedWhereDominated(c: Cost, req: Request)
    requires Executable(req, Pipeline)
    requires |Splitters(req)| >= 2 ==> TopTwoDominate(Splitters(req))
    ensures PipelineCandidates(c, req) != [] <==> SomePairHolds(Splitters(req), Needed(req))
  {
    var nodes := Splitters(req);
    if |nodes| >= 2 {
      NoSplitMissedIff(nodes);
      var a, b := Largest(nodes, FreeVram), SecondIndex(nodes);
      assert Joint(nodes, if a < b then a else b, if a < b then b else a)
          == UsableBytes(TopTwo(nodes)[0]) + UsableBytes(TopTwo(nodes)[1]);
    }
  }

  lemma OutsideTopTwo(nodes: seq<Node>, k: nat)
    requires |nodes| >= 2 && k < |nodes|
    requires k != Largest(nodes, FreeVram) && k != SecondIndex(nodes)
    ensures nodes[k].freeVram <= TopTwo(nodes)[0].freeVram && nodes[k].freeVram <= TopTwo(nodes)[1].freeVram
  {
    var a := Largest(nodes, FreeVram);
    var others := Without(nodes, a);
    assert FreeVram(nodes[k]) <= FreeVram(nodes[a]);
    assert others[if k < a then k else k - 1] == nodes[k];
    assert FreeVram(nodes[k]) <= FreeVram(others[Largest(others, FreeVram)]);
  }

  /** Free VRAM on every splitter is enough for that. */
  lemma FreeVramMissesNoSplit(nodes: seq<Node>)
    requires |nodes| >= 2 && forall i :: 0 <= i < |nodes| ==> nodes[i].freeVram != 0
    ensures TopTwoDominate(nodes)
  {
    var a, b := Largest(nodes, FreeVram), SecondIndex(nodes);
    forall k | 0 <= k < |nodes| && k != a && k != b
      ensures UsableBytes(nodes[k]) <= UsableBytes(nodes[a]) && UsableBytes(nodes[k]) <= UsableBytes(nodes[b])
    {
      OutsideTopTwo(nodes, k);
    }
  }

  /** Nodes without VRAM count with their RAM, but rank last: four nodes on which a split is missed and
      nothing else can be planned. */
  lemma SplitMissed(c: Cost, req: Request)
    requires |req.nodes| == 4 && req.executable == {"pipeline"}
    requires forall n :: n in req.nodes ==> RunsModel(req, n) && Can(n, "pipeline")
    requires req.nodes[0].freeVram == req.nodes[1].freeVram > 0 && 2 * req.nodes[0].freeVram < Needed(req)
    requires req.nodes[2].freeVram == req.nodes[3].freeVram == 0
    requires UsableBytes(req.nodes[2]) + UsableBytes(req.nodes[3]) >= Needed(req)
    ensures SomePairHolds(Splitters(req), Needed(req)) && Candidates(c, req) == []
  {
    AllAreSplitters(req);
    FourMiss(req.nodes, Needed(req));
    PipelineOnly(c, req);
    SplitOfferedIff(c, req);
  }

  lemma FourMiss(nodes: seq<Node>, needed: int)
    requires |nodes| == 4 && nodes[0].freeVram == nodes[1].freeVram > 0 && 2 * nodes[0].freeVram < needed
    requires nodes[2].freeVram == nodes[3].freeVram == 0 && UsableBytes(nodes[2]) + UsableBytes(nodes[3]) >= needed
    ensures SomePairHolds(nodes, needed) && !TopTwoHold(nodes, needed)
  {
    TopTwoOfFour(nodes);
    assert Joint(nodes, 2, 3) >= needed;
  }

  lemma AllAreSplitters(req: Request)
    requires forall n :: n in req.nodes ==> RunsModel(req, n) && Can(n, "pipeline")
    ensures Splitters(req) == req.nodes
  {
    KeepAll(req.nodes, n => RunsModel(req, n));
    KeepAll(req.nodes, n => Can(n, "pipeline"));
  }

  lemma PipelineOnly(c: Cost, req: Request)
    requires req.executable == {"pipeline"}
    ensures Candidates(c, req) == PipelineCandidates(c, req)
  {
    assert !Executable(req, Single) by { assert "single"[0] != "pipeline"[0]; }
    assert !Executable(req, Tensor) by { assert "tensor"[0] != "pipeline"[0]; }
    assert !Executable(req, Speculative) by { assert "speculative"[0] != "pipeline"[0]; }
  }

  lemma {:induction false} KeepAll(nodes: seq<Node>, wanted: Node -> bool)
    requires forall n :: n in nodes ==> wanted(n)
    ensures Keep(nodes, wanted) == nodes
  {
    if nodes != [] {
      KeepAll(nodes[..|nodes| - 1], wanted);
      assert nodes == nodes[..|nodes| - 1] + [nodes[|nodes| - 1]];
    }
  }

  lemma TopTwoOfFour(nodes: seq<Node>)
    requires |nodes| == 4 && nodes[0].freeVram == nodes[1].freeVram > 0 && nodes[2].freeVram == nodes[3].freeVram == 0
    ensures TopTwo(nodes) == [nodes[0], nodes[1]]
  {
    assert FreeVram(nodes[0]) == FreeVram(nodes[1]) > FreeVram(nodes[2]) == FreeVram(nodes[3]);
    assert Largest(nodes, FreeVram) == 0;
    var others := Without(nodes, 0);
    assert others[0] == nodes[1] && others[1] == nodes[2] && others[2] == nodes[3];
    assert Largest(others, FreeVram) == 0;
  }

  // ---- pipeline slices ---------------------------------------------------------------------------

  /** Slices follow each other without gap or overlap, from the first layer to the last. */
  lemma SlicesFollow(n: int, i: int)
    requires 0 <= i < n
    ensures Slice(0, n).0 == 0 && Slice(n - 1, n).1 == LAYERS
    ensures 0 <= Slice(i, n).0 <= Slice(i, n).1 <= LAYERS
    ensures i + 1 < n ==> Slice(i, n).1 == Slice(i + 1, n).0
  {
    var per := LAYERS / n;
    assert per * n <= LAYERS;
    assert i * per + per == (i + 1) * per;
    TimesGrows(i + 1, n, per);
  }

  lemma TimesGrows(a: int, b: int, x: int)
    requires a <= b && 0 <= x
    ensures a * x <= b * x
  {
    assert (b - a) * x >= 0;
  }

  /** Every slice but the last has the same share of the layers, and the last has what is left. */
  lemma SlicesAreEven(n: int, i: int)
    requires 0 <= i < n
    ensures var (start, end) := Slice(i, n);
            end - start == if i < n - 1 then LAYERS / n else LAYERS - (n - 1) * (LAYERS / n)
    ensures Slice(i, n).1 - Slice(i, n).0 >= 64 / n
    ensures n == 2 ==> Slice(0, n) == (0, 32) && Slice(1, n) == (32, 64)
  {
    var per := LAYERS / n;
    assert i * per + per == (i + 1) * per;
    assert per * n <= LAYERS;
    assert (n - 1) * per + per == n * per;
  }

  /** So every layer is in exactly one slice, for a chain of any length. */
  lemma EachLayerOnce(n: int, layer: int)
    requires 1 <= n && 0 <= layer < LAYERS
    ensures exists i :: 0 <= i < n && InSlice(layer, i, n)
    ensures forall i, j :: 0 <= i < n && 0 <= j < n && InSlice(layer, i, n) && InSlice(layer, j, n) ==> i == j
  {
    var i := FirstAbove(n, layer, n - 1);
    assert InSlice(layer, i, n);
    forall i, j | 0 <= i < j < n ensures Slice(i, n).1 <= Slice(j, n).0 {
      SlicesOrdered(n, i, j);
    }
  }

  ghost predicate InSlice(layer: int, i: int, n: int)
    requires 0 <= i < n
  {
    Slice(i, n).0 <= layer < Slice(i, n).1
  }

  lemma {:induction false} SlicesOrdered(n: int, i: int, j: int)
    requires 0 <= i < j < n
    ensures Slice(i, n).1 <= Slice(j, n).0
    decreases j - i
  {
    SlicesFollow(n, i);
    if i + 1 < j {
      SlicesFollow(n, i + 1);
      SlicesOrdered(n, i + 1, j);
    }
  }

  /** The slice that holds a layer below the end of slice `last`. */
  ghost function FirstAbove(n: int, layer: int, last: int): (i: int)
    requires 0 <= last < n && 0 <= layer < Slice(last, n).1
    ensures 0 <= i <= last && InSlice(layer, i, n)
    decreases last
  {
    if Slice(last, n).0 <= layer then last
    else
      SlicesFollow(n, 0);
      SlicesFollow(n, last - 1);
      FirstAbove(n, layer, last - 1)
  }

  // ---- pipelines and replicas --------------------------------------------------------------------

  /** Costs and links as they can be measured: no negative times, and no link better than stable. */
  ghost predicate Physical(c: Cost, links: Links) {
    && c.rttMultiplierPerHop >= 0.0 && c.activationBytesPerToken >= 0.0 && c.pipelineEfficiency <= 1.0
    && c.reliabilityPenalty >= 0.0
    && forall a, b :: LinkBetween(links, a, b).rttMs >= 0.0 && LinkBetween(links, a, b).stability <= 1.0
  }

  lemma {:induction false} WorstLinkPhysical(c: Cost, links: Links, chain: seq<Node>)
    requires Physical(c, links)
    ensures WorstLink(links, chain).rttMs >= 0.05 && WorstLink(links, chain).stability <= 1.0
  {
    if |chain| > 1 {
      WorstLinkPhysical(c, links, chain[..|chain| - 1]);
    }
  }

  /** The worst link is the slowest one of the chain. */
  lemma {:induction false} WorstLinkIsSlowest(links: Links, chain: seq<Node>, i: nat)
    requires i + 1 < |chain|
    ensures LinkBetween(links, chain[i].id, chain[i + 1].id).rttMs <= WorstLink(links, chain).rttMs
  {
    var shorter := chain[..|chain| - 1];
    if i + 1 < |shorter| {
      WorstLinkIsSlowest(links, shorter, i);
    }
  }

  lemma SignOfFactor(d: real, a: real)
    requires a > 0.0 && d * a >= 0.0
    ensures d >= 0.0
  {
  }

  lemma QuotientGrows(x: real, a: real, b: real)
    requires x >= 0.0 && 0.0 < b <= a
    ensures x / a <= x / b
  {
    var q, r := x / a, x / b;
    assert q * a == x && r * b == x;
    SignOfFactor(r, b);
    assert r * (a - b) >= 0.0;
    assert (r - q) * a == r * (a - b);
    SignOfFactor(r - q, a);
  }

  lemma ShrinksBelow(x: real, e: real, bound: real)
    requires 0.0 < x <= bound && 0.0 < e <= 1.0
    ensures 0.0 < x * e <= bound
  {
    assert x * (1.0 - e) >= 0.0;
  }

  /** Adding a delay to each item never raises the rate. */
  lemma RateWithDelay(rate: real, slower: real, delay: real)
    requires 0.0 < slower <= rate && delay >= 0.0
    ensures 0.0 < Delayed(slower, delay) <= rate
  {
    var each := 1.0 / slower;
    assert each * slower == 1.0;
    SignOfFactor(each, slower);
    var all := each + delay;
    QuotientGrows(1.0, all, each);
    assert 1.0 / each == slower;
    var r := 1.0 / all;
    assert r * all == 1.0;
    SignOfFactor(r, all);
  }

  lemma NetworkCosts(c: Cost, req: Request, chain: seq<Node>)
    requires chain != [] && Physical(c, req.links)
    ensures NetworkPerToken(c, req, chain) >= 0.0
  {
    WorstLinkPhysical(c, req.links, chain);
    var worst := WorstLink(req.links, chain);
    var hops := (|chain| - 1) as real;
    var rtt := worst.rttMs / 1000.0 * c.rttMultiplierPerHop;
    var mega := worst.throughputMbps * 1000000.0;
    var bits := c.activationBytesPerToken * 8.0 / mega;
    assert bits * mega == c.activationBytesPerToken * 8.0;
    assert bits >= 0.0;
    assert rtt * hops >= 0.0 && bits * hops >= 0.0;
  }

  lemma TwoSlowest(c: Cost, chain: seq<Node>)
    requires |chain| == 2
    ensures MinDecode(c, chain) <= DecodeTps(c, chain[0]) && MinPrefill(c, chain) <= PrefillTps(c, chain[0])
  {
    assert chain[..1] == [chain[0]];
  }

  lemma SliceRate(c: Cost, chain: seq<Node>)
    requires |chain| == 2 && c.pipelineEfficiency <= 1.0
    ensures SliceTps(c, chain) <= DecodeTps(c, chain[0])
  {
    TwoSlowest(c, chain);
    ShrinksBelow(MinDecode(c, chain), c.pipelineEfficiency, DecodeTps(c, chain[0]));
  }

  lemma SliceWithDelay(c: Cost, chain: seq<Node>, network: real)
    requires |chain| == 2 && c.pipelineEfficiency <= 1.0 && network >= 0.0
    ensures 0.0 < Delayed(SliceTps(c, chain), network) <= DecodeTps(c, chain[0])
  {
    SliceRate(c, chain);
    RateWithDelay(DecodeTps(c, chain[0]), SliceTps(c, chain), network);
  }

  lemma PipelineRate(c: Cost, req: Request, chain: seq<Node>)
    requires |chain| == 2 && Physical(c, req.links)
    ensures 0.0 < PredictPipeline(c, req, chain).1 <= DecodeTps(c, chain[0])
  {
    NetworkCosts(c, req, chain);
    SliceWithDelay(c, chain, NetworkPerToken(c, req, chain));
  }

  /** Generating through a pipeline takes at least as long as on its first node alone. */
  lemma PipelineDecodesSlower(c: Cost, req: Request, chain: seq<Node>)
    requires |chain| == 2 && Physical(c, req.links)
    ensures var tps := PredictPipeline(c, req, chain).1;
            tps > 0.0 && Generation(tps) >= Generation(DecodeTps(c, chain[0]))
  {
    PipelineRate(c, req, chain);
    QuotientGrows(REPRESENTATIVE_GEN, DecodeTps(c, chain[0]), PredictPipeline(c, req, chain).1);
  }

  lemma PenaltyNotNegative(c: Cost, links: Links, chain: seq<Node>)
    requires Physical(c, links)
    ensures Penalty(c, links, chain) >= 0.0 && (|chain| == 1 ==> Penalty(c, links, chain) == 0.0)
  {
    WorstLinkPhysical(c, links, chain);
  }

  lemma PipelineFirstTokenLater(c: Cost, req: Request, chain: seq<Node>)
    requires |chain| == 2 && Physical(c, req.links)
    ensures PredictSingle(c, req, chain[0]).0 <= PredictPipeline(c, req, chain).0
  {
    NetworkCosts(c, req, chain);
    TwoSlowest(c, chain);
    QuotientGrows(req.promptTokens as real, PrefillTps(c, chain[0]), MinPrefill(c, chain));
  }

  lemma PipelineScoresHigher(c: Cost, req: Request, chain: seq<Node>)
    requires |chain| == 2 && Physical(c, req.links) && Load(req, chain[0]) <= 0
    ensures SingleCandidate(c, req, chain[0]).score <= PipelineCandidate(c, req, chain).score
  {
    PipelineFirstTokenLater(c, req, chain);
    PipelineDecodesSlower(c, req, chain);
    PenaltyNotNegative(c, req.links, chain);
    PenaltyNotNegative(c, req.links, [chain[0]]);
    var p := PredictSingle(c, req, chain[0]);
    NoWait(Load(req, chain[0]), p.1);
    ScoreAtMost(c, req, p, [chain[0]], QueueWait(Load(req, chain[0]), p.1), PredictPipeline(c, req, chain), chain, 0.0);
  }

  lemma NoWait(queued: int, tps: real)
    requires queued <= 0
    ensures QueueWait(queued, tps) <= 0.0
  {
    WaitGrows(queued, 0, tps);
  }

  lemma ScoreAtMost(c: Cost, req: Request, p: Prediction, chain: seq<Node>, wait: real,
                    q: Prediction, chain': seq<Node>, wait': real)
    requires wait <= wait' && p.0 <= q.0 && Generation(p.1) <= Generation(q.1)
    requires Penalty(c, req.links, chain) <= Penalty(c, req.links, chain')
    ensures Score(c, req, p, chain, wait) <= Score(c, req, q, chain', wait')
  {
  }

  lemma WaitGrows(fewer: int, more: int, tps: real)
    requires fewer <= more
    ensures QueueWait(fewer, tps) <= QueueWait(more, tps)
  {
    if tps > 0.0 {
      var each := Generation(tps);
      assert each * tps == REPRESENTATIVE_GEN;
      SignOfFactor(each, tps);
      assert (more - fewer) as real * each >= 0.0;
    }
  }

  /** Every replica is among the candidates, and a pipeline stands behind all of them. */
  lemma ReplicaIsCandidate(c: Cost, req: Request, n: Node) returns (i: nat)
    requires Executable(req, Single) && n in Replicas(req)
    ensures i < |Replicas(req)| <= |Candidates(c, req)| && Candidates(c, req)[i] == SingleCandidate(c, req, n)
  {
    i :| i < |Replicas(req)| && Replicas(req)[i] == n;
    SingleAt(c, req, Replicas(req), i);
  }

  lemma PipelineStandsBehind(c: Cost, req: Request, k: nat)
    requires k < |Candidates(c, req)| && Candidates(c, req)[k].strategy == Pipeline && Executable(req, Single)
    ensures k >= |Replicas(req)| && PipelineCandidates(c, req) == [Candidates(c, req)[k]]
  {
    CandidateKind(c, req, k);
    if k < |Replicas(req)| {
      SingleAt(c, req, Replicas(req), k);
    }
  }

  lemma FreeReplicaFirst(c: Cost, req: Request, k: nat)
    requires Physical(c, req.links) && Executable(req, Single)
    requires k < |Candidates(c, req)| && Candidates(c, req)[k].strategy == Pipeline
    requires var chain := Candidates(c, req)[k].chain;
             |chain| == 2 && Fits(req, chain[0]) && Load(req, chain[0]) <= 0
    ensures !Selected(Candidates(c, req), k)
  {
    PipelineStandsBehind(c, req, k);
    PipelineSound(c, req);
    var chain := Candidates(c, req)[k].chain;
    CompatibleMembers(req, chain[0]);
    ReplicaMembers(req, chain[0]);
    var i := ReplicaIsCandidate(c, req, chain[0]);
    PipelineScoresHigher(c, req, chain);
    assert Candidates(c, req)[i].score <= Candidates(c, req)[k].score;
  }

  /** A pipeline is taken only where its first node does not fit the model alone, or is not free. */
  lemma PipelineOnlyWhereNeeded(c: Cost, req: Request, k: nat)
    requires Physical(c, req.links) && Executable(req, Single)
    requires Selected(Candidates(c, req), k) && Candidates(c, req)[k].strategy == Pipeline
    ensures var chain := Candidates(c, req)[k].chain;
            |chain| == 2 && (!Fits(req, chain[0]) || Load(req, chain[0]) > 0)
  {
    PipelineStandsBehind(c, req, k);
    PipelineSound(c, req);
    var chain := Candidates(c, req)[k].chain;
    if Fits(req, chain[0]) && Load(req, chain[0]) <= 0 {
      FreeReplicaFirst(c, req, k);
      assert false;
    }
  }

  // ---- more nodes --------------------------------------------------------------------------------

  /** The same request to a network with more nodes or shorter queues. */
  ghost predicate Relieved(req: Request, more: Request) {
    && more == req.(nodes := more.nodes, load := more.load)
    && forall n :: n in req.nodes ==> n in more.nodes && Load(more, n) <= Load(req, n)
  }

  lemma ReliefHelps(c: Cost, req: Request, more: Request, n: Node)
    requires Relieved(req, more) && n in req.nodes
    ensures SingleCandidate(c, more, n).score <= SingleCandidate(c, req, n).score
  {
    WaitGrows(Load(more, n), Load(req, n), DecodeTps(c, n));
    assert PredictSingle(c, more, n) == PredictSingle(c, req, n);
  }

  lemma ReplicaStays(req: Request, more: Request, n: Node)
    requires Relieved(req, more) && n in Replicas(req)
    ensures n in req.nodes && n in Replicas(more)
  {
    ReplicaMembers(req, n);
    assert RunsModel(more, n) && Fits(more, n);
    ReplicaMembers(more, n);
  }

  lemma SingleNames(req: Request)
    requires req.executable == {"single"}
    ensures Executable(req, Single)
  {
  }

  /** For single-node routing, more nodes or less load never make a request infeasible and never raise
      the selected score. */
  lemma MoreNodesNeverHurt(c: Cost, req: Request, more: Request, k: nat)
    requires req.executable == {"single"} && Relieved(req, more)
    requires Selected(Candidates(c, req), k)
    ensures Candidates(c, more) != []
    ensures forall m: nat :: Selected(Candidates(c, more), m) ==>
              Candidates(c, more)[m].score <= Candidates(c, req)[k].score
  {
    SingleNames(more);
    SingleOnly(c, req);
    var n := Replicas(req)[k];
    SingleAt(c, req, Replicas(req), k);
    ReplicaStays(req, more, n);
    var i := ReplicaIsCandidate(c, more, n);
    ReliefHelps(c, req, more, n);
    assert Candidates(c, more)[i].score <= Candidates(c, req)[k].score;
  }

  // ---- pods --------------------------------------------------------------------------------------

  function SumDecode(c: Cost, nodes: seq<Node>): real {
    if nodes == [] then 0.0 else SumDecode(c, nodes[..|nodes| - 1]) + DecodeTps(c, nodes[|nodes| - 1])
  }

  lemma {:induction false} SlowestTimesSize(c: Cost, nodes: seq<Node>)
    requires nodes != []
    ensures Times(MinDecode(c, nodes), |nodes|) <= SumDecode(c, nodes)
  {
    var shorter := nodes[..|nodes| - 1];
    if |nodes| > 1 {
      SlowestTimesSize(c, shorter);
      OneMoreMember(MinDecode(c, shorter), DecodeTps(c, nodes[|nodes| - 1]), |shorter|, SumDecode(c, shorter));
    } else {
      assert SumDecode(c, shorter) == 0.0;
    }
  }

  function Times(x: real, n: int): real {
    x * n as real
  }

  lemma OneMoreMember(slowest: real, rate: real, n: nat, sum: real)
    requires Times(slowest, n) <= sum
    ensures Times(Smaller(slowest, rate), n + 1) <= sum + rate
  {
    var m := Smaller(slowest, rate);
    TimesShrinks(m, slowest, n);
    TimesOneMore(m, n);
  }

  lemma TimesShrinks(a: real, b: real, n: nat)
    requires a <= b
    ensures Times(a, n) <= Times(b, n)
  {
    ProductNotNegative(b - a, n as real);
    assert (b - a) * n as real == b * n as real - a * n as real;
  }

  lemma TimesOneMore(a: real, n: nat)
    ensures Times(a, n + 1) == Times(a, n) + a
  {
    assert (n + 1) as real == n as real + 1.0;
    assert a * (n as real + 1.0) == a * n as real + a;
  }

  lemma ProductNotNegative(a: real, b: real)
    requires a >= 0.0 && b >= 0.0
    ensures a * b >= 0.0
  {
  }

  /** A tensor pod decodes at least as fast as its slowest member alone, and no faster than all of its
      members together. */
  lemma PodRateBounds(c: Cost, req: Request, pod: seq<Node>)
    requires pod != [] && 0.0 <= c.tensorEfficiency <= 1.0
    ensures MinDecode(c, pod) <= PredictTensor(c, req, pod).1 <= SumDecode(c, pod)
  {
    SlowestTimesSize(c, pod);
    ScaledBounds(MinDecode(c, pod), |pod| - 1, c.tensorEfficiency);
  }

  lemma ScaledBounds(base: real, added: nat, efficiency: real)
    requires base > 0.0 && 0.0 <= efficiency <= 1.0
    ensures base <= Scaled(base, added, efficiency) <= Times(base, added + 1)
  {
    var gain := added as real * efficiency;
    ProductNotNegative(added as real, efficiency);
    ProductNotNegative(added as real, 1.0 - efficiency);
    assert gain <= added as real;
    ProductNotNegative(base, gain);
    ProductNotNegative(base, added as real - gain);
  }

  // ---- drafts ------------------------------------------------------------------------------------

  lemma ShorterWait(queued: int, slow: real, fast: real)
    requires queued >= 0 && 0.0 < slow <= fast
    ensures QueueWait(queued, fast) <= QueueWait(queued, slow)
  {
    QuotientGrows(REPRESENTATIVE_GEN, fast, slow);
    var d := Generation(slow) - Generation(fast);
    assert queued as real * d >= 0.0;
  }

  /** A draft peer never makes its verifier slower: with a speedup of at least one, the speculative
      plan scores no worse than the verifier alone. */
  lemma SpeculationNeverSlower(c: Cost, req: Request, strong: Node, draft: Node)
    requires c.speculativeSpeedup >= 1.0 && Load(req, strong) >= 0
    ensures SpeculativeCandidate(c, req, strong, draft).score <= SingleCandidate(c, req, strong).score
  {
    var base := DecodeTps(c, strong);
    Stretches(base, c.speculativeSpeedup);
    var fast := PredictSpeculative(c, req, strong).1;
    ShorterWait(Load(req, strong), base, fast);
    FasterScoresLower(c, req, PredictSingle(c, req, strong).0, base, fast, [strong],
                      QueueWait(Load(req, strong), base), QueueWait(Load(req, strong), fast));
  }

  lemma Stretches(x: real, factor: real)
    requires x > 0.0 && factor >= 1.0
    ensures x * factor >= x
  {
    assert x * (factor - 1.0) >= 0.0;
  }

  lemma FasterScoresLower(c: Cost, req: Request, ttft: real, slow: real, fast: real, chain: seq<Node>,
                          wait: real, wait': real)
    requires 0.0 < slow <= fast && wait' <= wait
    ensures Score(c, req, (ttft, fast), chain, wait') <= Score(c, req, (ttft, slow), chain, wait)
  {
    QuotientGrows(REPRESENTATIVE_GEN, fast, slow);
  }
}
